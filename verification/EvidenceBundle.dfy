/**
 Evidence bundles: a manifest that indexes every file of a directory, and the
 check that a downloaded directory is the one that was indexed.
 */
module EvidenceBundle {
  import opened Wrappers
  import opened Collections

  const MANIFEST := "evidence-manifest.json"

  type Byte = b: nat | b < 256
  type Bytes = seq<Byte>

  /** What a path of the directory holds; plain subdirectories are not listed. */
  datatype Item = File(bytes: Bytes) | Link

  type Directory = map<string, Item>

  datatype Entry = Entry(path: string, digest: string, size: int)

  /** The identity holds the repository, run, source commit, producer and artifact fields by name. */
  datatype Manifest = Manifest(
    identity: map<string, string>, conclusion: string, result: string, manifestPath: string, present: bool,
    fileCount: int, totalBytes: int, entries: seq<Entry>, indexHash: string)

  /**
   The hashes of contents and of indexes, the encoding of a manifest, the paths
   that are safe with their normal form, and the commits and identities that are
   well formed.
   */
  datatype World = World(
    hash: Bytes -> string, hashIndex: seq<Entry> -> string, encode: Manifest -> Bytes,
    normalize: string -> Option<string>, commitOk: string -> bool, identityOk: map<string, string> -> bool)

  datatype EvidenceError =
    | BadCommit | WrongCommit | BadConclusion | ReservedPath | HasLink | UnsafePath | BadIdentity | BadResult | BadCount
    | BadTotal
    | BadDigest | BadSize | DuplicatePath | BadPresence | PassedWithoutContent | BadIndexHash | UnindexedFiles
    | SizeMismatch | DigestMismatch | UnexpectedIdentity

  predicate IsConclusion(s: string) {
    s == "success" || s == "failure" || s == "cancelled"
  }

  predicate IsDigest(s: string) {
    |s| == 64 && forall c | c in s :: '0' <= c <= '9' || 'a' <= c <= 'f'
  }

  function Total(entries: seq<Entry>): int {
    if entries == [] then 0 else Total(entries[..|entries| - 1]) + entries[|entries| - 1].size
  }

  /** The contents of the regular files, except for one path. */
  function FilesOf(dir: Directory, except: string): map<string, Bytes> {
    map p | p in dir && dir[p].File? && p != except :: dir[p].bytes
  }

  predicate HasNoLinks(dir: Directory) {
    forall p | p in dir :: dir[p].File?
  }

  // ---- Creating a bundle ----

  function IndexFiles(w: World, dir: Directory, listing: seq<string>): Result<seq<Entry>, EvidenceError>
    requires forall p | p in listing :: p in dir
  {
    if listing == [] then
      Success([])
    else
      var before :- IndexFiles(w, dir, listing[..|listing| - 1]);
      var p := listing[|listing| - 1];
      assert p in listing;
      if dir[p].Link? then Failure(HasLink)
      else if w.normalize(p).None? then Failure(UnsafePath)
      else Success(before + [Entry(p, w.hash(dir[p].bytes), |dir[p].bytes|)])
  }

  function ResultFor(conclusion: string, total: int): string {
    if conclusion == "success" && total > 0 then "passed" else "failed"
  }

  function MakeManifest(w: World, identity: map<string, string>, conclusion: string, entries: seq<Entry>): Manifest {
    Manifest(identity, conclusion, ResultFor(conclusion, Total(entries)), MANIFEST, entries != [], |entries|,
             Total(entries), entries, w.hashIndex(entries))
  }

  /** What the caller supplies: an identity, the commit checked out and the one expected, and a conclusion. */
  datatype Gate = Gate(identity: map<string, string>, commit: string, expectedCommit: string, conclusion: string)

  const SOURCE_SHA := "source_sha"

  function FullIdentity(g: Gate): map<string, string> {
    g.identity[SOURCE_SHA := g.commit]
  }

  /** The manifest of a directory, whose paths are listed in the order in which they are visited. */
  function Create(w: World, g: Gate, dir: Directory, listing: seq<string>): Result<Manifest, EvidenceError>
    requires Elements(listing) == dir.Keys
  {
    if !w.commitOk(g.commit) || !w.commitOk(g.expectedCommit) then Failure(BadCommit)
    else if g.commit != g.expectedCommit then Failure(WrongCommit)
    else if !IsConclusion(g.conclusion) then Failure(BadConclusion)
    else if MANIFEST in dir then Failure(ReservedPath)
    else
      assert forall p | p in listing :: p in Elements(listing);
      var entries :- IndexFiles(w, dir, listing);
      if !w.identityOk(FullIdentity(g)) then Failure(BadIdentity)
      else Success(MakeManifest(w, FullIdentity(g), g.conclusion, entries))
  }

  class Bundle {
    var dir: Directory

    method IndexDirectory(w: World, listing: seq<string>) returns (r: Result<seq<Entry>, EvidenceError>)
      requires forall p | p in listing :: p in dir
      ensures r == IndexFiles(w, dir, listing)
    {
      var entries: seq<Entry> := [];
      for i := 0 to |listing|
        invariant IndexFiles(w, dir, listing[..i]) == Success(entries)
      {
        assert listing[..i + 1][..i] == listing[..i] && listing[i] in listing;
        var item := dir[listing[i]];
        if item.Link? {
          IndexFailureStays(w, dir, listing, i + 1);
          return Failure(HasLink);
        }
        if w.normalize(listing[i]).None? {
          IndexFailureStays(w, dir, listing, i + 1);
          return Failure(UnsafePath);
        }
        entries := entries + [Entry(listing[i], w.hash(item.bytes), |item.bytes|)];
      }
      assert listing[..|listing|] == listing;
      return Success(entries);
    }

    static method SumSizes(entries: seq<Entry>) returns (total: int)
      ensures total == Total(entries)
    {
      total := 0;
      for i := 0 to |entries|
        invariant total == Total(entries[..i])
      {
        assert entries[..i + 1][..i] == entries[..i];
        total := total + entries[i].size;
      }
      assert entries[..|entries|] == entries;
    }

    /** Indexes the directory and writes the manifest into it. */
    method CreateEvidenceBundle(w: World, g: Gate, listing: seq<string>) returns (r: Result<Manifest, EvidenceError>)
      requires Elements(listing) == dir.Keys
      modifies this
      ensures r == Create(w, g, old(dir), listing)
      ensures dir == if r.Success? then old(dir)[MANIFEST := File(w.encode(r.value))] else old(dir)
    {
      if !w.commitOk(g.commit) || !w.commitOk(g.expectedCommit) {
        return Failure(BadCommit);
      }
      if g.commit != g.expectedCommit {
        return Failure(WrongCommit);
      }
      if !IsConclusion(g.conclusion) {
        return Failure(BadConclusion);
      }
      if MANIFEST in dir {
        return Failure(ReservedPath);
      }
      assert forall p | p in listing :: p in Elements(listing);
      var entries :- IndexDirectory(w, listing);
      var totalBytes := SumSizes(entries);
      var identity := FullIdentity(g);
      if !w.identityOk(identity) {
        return Failure(BadIdentity);
      }
      var manifest := Manifest(identity, g.conclusion, ResultFor(g.conclusion, totalBytes), MANIFEST, entries != [],
                               |entries|, totalBytes, entries, w.hashIndex(entries));
      dir := dir[MANIFEST := File(w.encode(manifest))];
      return Success(manifest);
    }
  }

  lemma {:induction false} IndexFailureStays(w: World, dir: Directory, listing: seq<string>, k: nat)
    requires k <= |listing| && forall p | p in listing :: p in dir
    requires IndexFiles(w, dir, listing[..k]).Failure?
    ensures IndexFiles(w, dir, listing) == Failure(IndexFiles(w, dir, listing[..k]).error)
    decreases |listing| - k
  {
    if k < |listing| {
      assert listing[..|listing| - 1][..k] == listing[..k];
      IndexFailureStays(w, dir, listing[..|listing| - 1], k);
    } else {
      assert listing[..k] == listing;
    }
  }

  // ---- Verifying a bundle ----

  datatype Claim = Claim(digest: string, size: int)

  /** The claims of the index by normal path. */
  function Indexed(w: World, entries: seq<Entry>): Result<map<string, Claim>, EvidenceError> {
    if entries == [] then
      Success(map[])
    else
      var before :- Indexed(w, entries[..|entries| - 1]);
      var e := entries[|entries| - 1];
      match w.normalize(e.path)
      case None => Failure(UnsafePath)
      case Some(path) =>
        if !IsDigest(e.digest) then Failure(BadDigest)
        else if e.size < 0 then Failure(BadSize)
        else if path in before then Failure(DuplicatePath)
        else Success(before[path := Claim(e.digest, e.size)])
  }

  predicate IsExpected(expected: map<string, string>, identity: map<string, string>) {
    forall k | k in expected :: k in identity && identity[k] == expected[k]
  }

  /** What the manifest must satisfy by itself. */
  predicate IsConsistent(w: World, m: Manifest) {
    && w.identityOk(m.identity) && IsConclusion(m.conclusion) && (m.result == "passed" || m.result == "failed")
    && w.normalize(m.manifestPath).Some? && m.fileCount == |m.entries| && m.totalBytes >= 0
    && Indexed(w, m.entries).Success? && m.present == (m.entries != []) && m.totalBytes == Total(m.entries)
    && (m.result == "passed" ==> m.conclusion == "success" && m.entries != [] && m.totalBytes != 0)
    && w.hashIndex(m.entries) == m.indexHash
  }

  predicate Describes(w: World, claims: map<string, Claim>, files: map<string, Bytes>) {
    && claims.Keys == files.Keys
    && forall p | p in claims :: claims[p] == Claim(w.hash(files[p]), |files[p]|)
  }

  predicate Accepts(w: World, m: Manifest, dir: Directory, expected: map<string, string>) {
    && IsConsistent(w, m) && HasNoLinks(dir)
    && Describes(w, Indexed(w, m.entries).value, FilesOf(dir, w.normalize(m.manifestPath).value))
    && IsExpected(expected, m.identity)
  }

  method IndexClaims(w: World, entries: seq<Entry>) returns (r: Result<map<string, Claim>, EvidenceError>)
    ensures r == Indexed(w, entries)
  {
    var indexed: map<string, Claim> := map[];
    for i := 0 to |entries|
      invariant Indexed(w, entries[..i]) == Success(indexed)
    {
      assert entries[..i + 1][..i] == entries[..i];
      var e := entries[i];
      var path := w.normalize(e.path);
      if path.None? || !IsDigest(e.digest) || e.size < 0 || path.value in indexed {
        ClaimFailureStays(w, entries, i + 1);
        return Failure(if path.None? then UnsafePath else if !IsDigest(e.digest) then BadDigest
                       else if e.size < 0 then BadSize else DuplicatePath);
      }
      indexed := indexed[path.value := Claim(e.digest, e.size)];
    }
    assert entries[..|entries|] == entries;
    return Success(indexed);
  }

  lemma {:induction false} ClaimFailureStays(w: World, entries: seq<Entry>, k: nat)
    requires k <= |entries| && Indexed(w, entries[..k]).Failure?
    ensures Indexed(w, entries) == Failure(Indexed(w, entries[..k]).error)
    decreases |entries| - k
  {
    if k < |entries| {
      assert entries[..|entries| - 1][..k] == entries[..k];
      ClaimFailureStays(w, entries[..|entries| - 1], k);
    } else {
      assert entries[..k] == entries;
    }
  }

  /** Compares every claim with the file it is about. */
  method CompareFiles(w: World, claims: map<string, Claim>, files: map<string, Bytes>)
    returns (r: Result<(), EvidenceError>)
    ensures r.Success? <==> Describes(w, claims, files)
  {
    if claims.Keys != files.Keys {
      return Failure(UnindexedFiles);
    }
    var left := claims.Keys;
    while left != {}
      invariant left <= claims.Keys
      invariant forall p | p in claims && p !in left :: claims[p] == Claim(w.hash(files[p]), |files[p]|)
      decreases |left|
    {
      var p :| p in left;
      if |files[p]| != claims[p].size {
        return Failure(SizeMismatch);
      }
      if w.hash(files[p]) != claims[p].digest {
        return Failure(DigestMismatch);
      }
      left := left - {p};
    }
    return Success(());
  }

  /** The files found by walking the directory; a link anywhere refuses it. */
  method WalkDirectory(dir: Directory, manifestPath: string) returns (r: Result<map<string, Bytes>, EvidenceError>)
    ensures r.Success? <==> HasNoLinks(dir)
    ensures r.Success? ==> r.value == FilesOf(dir, manifestPath)
  {
    var left, files: map<string, Bytes> := dir.Keys, map[];
    while left != {}
      invariant left <= dir.Keys && forall p | p in dir && p !in left :: dir[p].File?
      invariant files == FilesOf(dir - left, manifestPath)
      decreases |left|
    {
      var p :| p in left;
      if dir[p].Link? {
        return Failure(HasLink);
      }
      assert (dir - (left - {p})) == (dir - left)[p := dir[p]];
      if p != manifestPath {
        files := files[p := dir[p].bytes];
      }
      left := left - {p};
    }
    return Success(files);
  }

  /** Succeeds exactly for the manifests and directories that are accepted. */
  method VerifyEvidenceBundle(w: World, m: Manifest, dir: Directory, expected: map<string, string>)
    returns (r: Result<Manifest, EvidenceError>)
    ensures r.Success? <==> Accepts(w, m, dir, expected)
    ensures r.Success? ==> r.value == m
  {
    if !w.identityOk(m.identity) {
      return Failure(BadIdentity);
    }
    if !IsConclusion(m.conclusion) {
      return Failure(BadConclusion);
    }
    if m.result != "passed" && m.result != "failed" {
      return Failure(BadResult);
    }
    var manifestPath := w.normalize(m.manifestPath);
    if manifestPath.None? {
      return Failure(UnsafePath);
    }
    if m.fileCount != |m.entries| {
      return Failure(BadCount);
    }
    if m.totalBytes < 0 {
      return Failure(BadTotal);
    }
    var indexed :- IndexClaims(w, m.entries);
    IndexedSize(w, m.entries);
    if (indexed != map[]) != m.present {
      return Failure(BadPresence);
    }
    if m.totalBytes != Total(m.entries) {
      return Failure(BadTotal);
    }
    if m.result == "passed" && (m.conclusion != "success" || indexed == map[] || m.totalBytes == 0) {
      return Failure(PassedWithoutContent);
    }
    if w.hashIndex(m.entries) != m.indexHash {
      return Failure(BadIndexHash);
    }
    var files :- WalkDirectory(dir, manifestPath.value);
    var _ :- CompareFiles(w, indexed, files);
    if !IsExpected(expected, m.identity) {
      return Failure(UnexpectedIdentity);
    }
    return Success(m);
  }

  lemma {:induction false} IndexedSize(w: World, entries: seq<Entry>)
    requires Indexed(w, entries).Success?
    ensures |Indexed(w, entries).value| == |entries|
    ensures Indexed(w, entries).value == map[] <==> entries == []
  {
    if entries != [] {
      IndexedSize(w, entries[..|entries| - 1]);
    }
  }

  // ---- The round trip ----

  /** No two different files of one path and one size share a hash. */
  ghost predicate NoCollision(w: World, a: map<string, Bytes>, b: map<string, Bytes>) {
    forall p | p in a && p in b && |a[p]| == |b[p]| && w.hash(a[p]) == w.hash(b[p]) :: a[p] == b[p]
  }

  /** Content hashes are digests; the paths of a directory and the manifest's own are in normal form. */
  ghost predicate IsUsual(w: World, dir: Directory) {
    && (forall b :: IsDigest(w.hash(b)))
    && (forall p | p in dir && w.normalize(p).Some? :: w.normalize(p).value == p)
    && w.normalize(MANIFEST) == Some(MANIFEST)
  }

  /** The claims that describe these files. */
  function ClaimsOf(w: World, files: map<string, Bytes>): map<string, Claim> {
    map p | p in files :: Claim(w.hash(files[p]), |files[p]|)
  }

  function Restrict(dir: Directory, paths: seq<string>): Directory {
    map p | p in dir && p in paths :: dir[p]
  }

  lemma ClaimsGrow(w: World, dir: Directory, init: seq<string>, p: string)
    requires p in dir && dir[p].File? && p != MANIFEST && HasNoLinks(Restrict(dir, init))
    ensures HasNoLinks(Restrict(dir, init + [p]))
    ensures ClaimsOf(w, FilesOf(Restrict(dir, init + [p]), MANIFEST))
         == ClaimsOf(w, FilesOf(Restrict(dir, init), MANIFEST))[p := Claim(w.hash(dir[p].bytes), |dir[p].bytes|)]
  {
    assert Restrict(dir, init + [p]) == Restrict(dir, init)[p := dir[p]];
    assert FilesOf(Restrict(dir, init + [p]), MANIFEST)
        == FilesOf(Restrict(dir, init), MANIFEST)[p := dir[p].bytes];
  }

  lemma IndexGrows(w: World, before: seq<Entry>, p: string, bytes: Bytes)
    requires Indexed(w, before).Success? && p !in Indexed(w, before).value
    requires w.normalize(p) == Some(p) && IsDigest(w.hash(bytes))
    ensures Indexed(w, before + [Entry(p, w.hash(bytes), |bytes|)])
         == Success(Indexed(w, before).value[p := Claim(w.hash(bytes), |bytes|)])
  {
    var entries := before + [Entry(p, w.hash(bytes), |bytes|)];
    assert entries[..|entries| - 1] == before;
  }

  /** Indexing the files of a directory and reading the index back gives the claims that describe them. */
  lemma {:induction false} IndexReadsBack(w: World, dir: Directory, listing: seq<string>)
    requires IsUsual(w, dir) && MANIFEST !in dir && Distinct(listing) && forall p | p in listing :: p in dir
    requires IndexFiles(w, dir, listing).Success?
    ensures HasNoLinks(Restrict(dir, listing))
    ensures Indexed(w, IndexFiles(w, dir, listing).value)
         == Success(ClaimsOf(w, FilesOf(Restrict(dir, listing), MANIFEST)))
  {
    if listing == [] {
      assert Restrict(dir, listing) == map[] && FilesOf(map[], MANIFEST) == map[];
    } else {
      var init, p := listing[..|listing| - 1], listing[|listing| - 1];
      assert listing == init + [p] && p in listing && p !in init;
      IndexReadsBack(w, dir, init);
      ClaimsGrow(w, dir, init, p);
      IndexGrows(w, IndexFiles(w, dir, init).value, p, dir[p].bytes);
    }
  }

  ghost predicate SomeContent(dir: Directory, listing: seq<string>) {
    exists p :: p in listing && p in dir && dir[p].File? && dir[p].bytes != []
  }

  lemma SomeContentSnoc(dir: Directory, init: seq<string>, p: string)
    requires p in dir && dir[p].File?
    ensures SomeContent(dir, init + [p]) <==> SomeContent(dir, init) || dir[p].bytes != []
  {
    assert p in init + [p];
  }

  lemma IndexSnoc(w: World, dir: Directory, init: seq<string>, p: string)
    requires (forall q | q in init + [p] :: q in dir) && IndexFiles(w, dir, init + [p]).Success?
    ensures p in init + [p] && (forall q | q in init :: q in init + [p]) && dir[p].File?
    ensures IndexFiles(w, dir, init).Success?
    ensures IndexFiles(w, dir, init + [p]).value
         == IndexFiles(w, dir, init).value + [Entry(p, w.hash(dir[p].bytes), |dir[p].bytes|)]
  {
    assert p in init + [p] && (init + [p])[..|init|] == init;
  }

  lemma TotalSnoc(entries: seq<Entry>, e: Entry)
    ensures Total(entries + [e]) == Total(entries) + e.size
  {
    assert (entries + [e])[..|entries|] == entries;
  }

  lemma {:induction false} TotalIsPositiveIff(w: World, dir: Directory, listing: seq<string>)
    requires (forall p | p in listing :: p in dir) && IndexFiles(w, dir, listing).Success?
    ensures Total(IndexFiles(w, dir, listing).value) >= 0
    ensures Total(IndexFiles(w, dir, listing).value) > 0 <==> SomeContent(dir, listing)
    ensures |IndexFiles(w, dir, listing).value| == |listing|
  {
    hide SomeContent;
    if listing == [] {
      NoContent(dir);
    } else {
      var init, p := listing[..|listing| - 1], listing[|listing| - 1];
      assert listing == init + [p];
      IndexSnoc(w, dir, init, p);
      TotalIsPositiveIff(w, dir, init);
      SomeContentSnoc(dir, init, p);
      TotalSnoc(IndexFiles(w, dir, init).value, Entry(p, w.hash(dir[p].bytes), |dir[p].bytes|));
    }
  }

  lemma NoContent(dir: Directory)
    ensures !SomeContent(dir, [])
  {
  }

  /** A bundle passes exactly when its gate succeeded and some file has content. */
  lemma PassedIff(
    w: World, g: Gate, dir: Directory, listing: seq<string>)
    requires Elements(listing) == dir.Keys && Create(w, g, dir, listing).Success?
    ensures Create(w, g, dir, listing).value.result == "passed" <==>
            g.conclusion == "success" && exists p :: p in dir && dir[p].File? && dir[p].bytes != []
  {
    assert forall p :: p in listing <==> p in Elements(listing);
    TotalIsPositiveIff(w, dir, listing);
    assert "failed"[0] == 'f' && "passed"[0] == 'p';
  }

  /** A manifest and its directory describe each other. */
  lemma CreatedDescribes(
    w: World, g: Gate, dir: Directory, listing: seq<string>)
    requires Elements(listing) == dir.Keys && Distinct(listing) && IsUsual(w, dir)
    requires Create(w, g, dir, listing).Success?
    ensures var m := Create(w, g, dir, listing).value;
            && IsConsistent(w, m) && HasNoLinks(dir)
            && Indexed(w, m.entries).value == ClaimsOf(w, FilesOf(dir, MANIFEST))
  {
    assert forall p :: p in listing <==> p in Elements(listing);
    IndexReadsBack(w, dir, listing);
    assert Restrict(dir, listing) == dir;
    TotalIsPositiveIff(w, dir, listing);
    var m := Create(w, g, dir, listing).value;
    assert m.result == "passed" ==> g.conclusion == "success" && m.totalBytes > 0 by {
      assert "failed"[0] == 'f' && "passed"[0] == 'p';
    }
  }

  lemma DescribesTheSame(w: World, a: map<string, Bytes>, b: map<string, Bytes>)
    requires NoCollision(w, a, b)
    ensures Describes(w, ClaimsOf(w, a), b) <==> a == b
  {
    if Describes(w, ClaimsOf(w, a), b) {
      assert ClaimsOf(w, a).Keys == a.Keys;
      forall p | p in a
        ensures a[p] == b[p]
      {
        assert ClaimsOf(w, a)[p] == Claim(w.hash(b[p]), |b[p]|);
      }
    }
  }

  /**
   A manifest made for one directory is accepted against another exactly when
   that one has the same files with the same bytes, no links, and the identity
   that the caller expects, as long as no two of the compared files collide; the
   manifest file itself does not count.
   */
  lemma AcceptedIffSameFiles(
    w: World, g: Gate, dir: Directory, listing: seq<string>, other: Directory, expected: map<string, string>)
    requires Elements(listing) == dir.Keys && Distinct(listing) && IsUsual(w, dir)
    requires Create(w, g, dir, listing).Success?
    requires NoCollision(w, FilesOf(dir, MANIFEST), FilesOf(other, MANIFEST))
    ensures Accepts(w, Create(w, g, dir, listing).value, other, expected) <==>
            HasNoLinks(other) && FilesOf(other, MANIFEST) == FilesOf(dir, MANIFEST)
            && IsExpected(expected, FullIdentity(g))
  {
    CreatedDescribes(w, g, dir, listing);
    DescribesTheSame(w, FilesOf(dir, MANIFEST), FilesOf(other, MANIFEST));
  }

  /** Some other content of the same size has the hash of one of these files. */
  ghost predicate HasTwin(w: World, files: map<string, Bytes>) {
    exists p, b :: p in files && |b| == |files[p]| && w.hash(b) == w.hash(files[p]) && b != files[p]
  }

  /**
   Acceptance pins the files down exactly when none of them has a twin: some
   other content of its size with its hash.
   */
  lemma AcceptancePinsFilesIff(w: World, g: Gate, dir: Directory, listing: seq<string>)
    requires Elements(listing) == dir.Keys && Distinct(listing) && IsUsual(w, dir)
    requires Create(w, g, dir, listing).Success?
    ensures (forall other | Accepts(w, Create(w, g, dir, listing).value, other, map[]) ::
               FilesOf(other, MANIFEST) == FilesOf(dir, MANIFEST))
            <==> !HasTwin(w, FilesOf(dir, MANIFEST))
  {
    var m, files := Create(w, g, dir, listing).value, FilesOf(dir, MANIFEST);
    if HasTwin(w, files) {
      var p, b :| p in files && |b| == |files[p]| && w.hash(b) == w.hash(files[p]) && b != files[p];
      TwinIsAccepted(w, g, dir, listing, p, b);
    } else {
      forall other | Accepts(w, m, other, map[])
        ensures FilesOf(other, MANIFEST) == files
      {
        NoTwinNoCollision(w, files, FilesOf(other, MANIFEST));
        AcceptedIffSameFiles(w, g, dir, listing, other, map[]);
      }
    }
  }

  lemma NoTwinNoCollision(w: World, files: map<string, Bytes>, others: map<string, Bytes>)
    requires !HasTwin(w, files)
    ensures NoCollision(w, files, others)
  {
    forall p | p in files && p in others && |files[p]| == |others[p]| && w.hash(files[p]) == w.hash(others[p])
      ensures files[p] == others[p]
    {
    }
  }

  /** A twin in the place of a file goes unnoticed. */
  lemma TwinIsAccepted(w: World, g: Gate, dir: Directory, listing: seq<string>, p: string, b: Bytes)
    requires Elements(listing) == dir.Keys && Distinct(listing) && IsUsual(w, dir)
    requires Create(w, g, dir, listing).Success?
    requires var files := FilesOf(dir, MANIFEST);
             p in files && |b| == |files[p]| && w.hash(b) == w.hash(files[p]) && b != files[p]
    ensures Accepts(w, Create(w, g, dir, listing).value, dir[p := File(b)], map[])
    ensures FilesOf(dir[p := File(b)], MANIFEST) != FilesOf(dir, MANIFEST)
  {
    CreatedDescribes(w, g, dir, listing);
    assert FilesOf(dir[p := File(b)], MANIFEST) == FilesOf(dir, MANIFEST)[p := b];
  }

  /** A bundle is accepted where it was made, now that its manifest is written there. */
  lemma WrittenBundleIsAccepted(
    w: World, g: Gate, dir: Directory, listing: seq<string>)
    requires Elements(listing) == dir.Keys && Distinct(listing) && IsUsual(w, dir)
    requires Create(w, g, dir, listing).Success?
    ensures var m := Create(w, g, dir, listing).value;
            Accepts(w, m, dir[MANIFEST := File(w.encode(m))], FullIdentity(g))
  {
    CreatedDescribes(w, g, dir, listing);
    var m := Create(w, g, dir, listing).value;
    assert FilesOf(dir[MANIFEST := File(w.encode(m))], MANIFEST) == FilesOf(dir, MANIFEST);
  }

  // ---- Any accepted manifest ----

  lemma {:induction false} PositiveTotalHasClaim(w: World, entries: seq<Entry>)
    requires Indexed(w, entries).Success? && Total(entries) != 0
    ensures exists p :: p in Indexed(w, entries).value && Indexed(w, entries).value[p].size > 0
  {
    var e := entries[|entries| - 1];
    if e.size == 0 {
      PositiveTotalHasClaim(w, entries[..|entries| - 1]);
      var init := entries[..|entries| - 1];
      var p :| p in Indexed(w, init).value && Indexed(w, init).value[p].size > 0;
      assert Indexed(w, entries).value[p].size > 0;
    } else {
      assert Indexed(w, entries).value[w.normalize(e.path).value].size == e.size;
    }
  }

  /**
   Whoever wrote it, an accepted manifest fixes the files: two directories it
   is accepted against have the same ones, unless two of them collide. A passed
   one has a file with content.
   */
  lemma AcceptedManifestFixesFiles(
    w: World, m: Manifest, a: Directory, b: Directory, expected: map<string, string>)
    requires Accepts(w, m, a, expected) && Accepts(w, m, b, expected)
    requires var path := w.normalize(m.manifestPath).value; NoCollision(w, FilesOf(a, path), FilesOf(b, path))
    ensures FilesOf(a, w.normalize(m.manifestPath).value) == FilesOf(b, w.normalize(m.manifestPath).value)
    ensures m.fileCount == |FilesOf(a, w.normalize(m.manifestPath).value)|
    ensures m.result == "passed" ==>
              m.conclusion == "success" && exists p :: p in a && a[p].File? && a[p].bytes != []
  {
    var path := w.normalize(m.manifestPath).value;
    var claims := Indexed(w, m.entries).value;
    assert claims == ClaimsOf(w, FilesOf(a, path));
    DescribesTheSame(w, FilesOf(a, path), FilesOf(b, path));
    IndexedSize(w, m.entries);
    assert |claims.Keys| == |FilesOf(a, path).Keys|;
    if m.result == "passed" {
      PositiveTotalHasClaim(w, m.entries);
      var p :| p in claims && claims[p].size > 0;
      assert a[p].bytes != [];
    }
  }

  // ---- A bundle of one file ----

  const REPORT := "report"

  function OneFile(bytes: Bytes): Directory {
    map[REPORT := File(bytes)]
  }

  lemma OneFileFiles(bytes: Bytes)
    ensures MANIFEST !in OneFile(bytes) && FilesOf(OneFile(bytes), MANIFEST) == map[REPORT := bytes]
    ensures Elements([REPORT]) == OneFile(bytes).Keys && HasNoLinks(OneFile(bytes))
  {
    assert MANIFEST[0] == 'e' && REPORT[0] == 'r';
  }

  /** Under a sound world every directory of one file is indexed. */
  lemma OneFileIsCreated(w: World, g: Gate, bytes: Bytes)
    requires w.normalize(REPORT).Some? && w.commitOk(g.commit) && g.commit == g.expectedCommit
    requires IsConclusion(g.conclusion) && w.identityOk(FullIdentity(g))
    ensures Elements([REPORT]) == OneFile(bytes).Keys && Create(w, g, OneFile(bytes), [REPORT]).Success?
  {
    OneFileFiles(bytes);
    assert [REPORT][..0] == [];
    assert IndexFiles(w, OneFile(bytes), []).Success?;
    assert IndexFiles(w, OneFile(bytes), [REPORT]).Success?;
  }

  function Digits64(c: char): string {
    seq(64, _ => c)
  }

  /** A hash that tells contents of one byte from all others. */
  const PLAIN_WORLD := World(
    (b: Bytes) => if |b| == 1 then Digits64('1') else Digits64('0'), (_: seq<Entry>) => "index",
    (_: Manifest) => [], (p: string) => Some(p), (_: string) => true, (_: map<string, string>) => true)

  const PASSED_GATE := Gate(map[], "c0ffee", "c0ffee", "success")

  /** A concrete bundle meets every assumption above: it is accepted as it was made and not once its file is emptied. */
  lemma OneFileBundle()
    ensures IsUsual(PLAIN_WORLD, OneFile([7])) && Distinct([REPORT]) && Elements([REPORT]) == OneFile([7]).Keys
    ensures Create(PLAIN_WORLD, PASSED_GATE, OneFile([7]), [REPORT]).Success?
    ensures NoCollision(PLAIN_WORLD, FilesOf(OneFile([7]), MANIFEST), FilesOf(OneFile([]), MANIFEST))
    ensures var m := Create(PLAIN_WORLD, PASSED_GATE, OneFile([7]), [REPORT]).value;
            Accepts(PLAIN_WORLD, m, OneFile([7]), map[]) && !Accepts(PLAIN_WORLD, m, OneFile([]), map[])
  {
    hide Accepts, Create;
    OneFileFiles([7]);
    OneFileFiles([]);
    OneFileIsCreated(PLAIN_WORLD, PASSED_GATE, [7]);
    AcceptedIffSameFiles(PLAIN_WORLD, PASSED_GATE, OneFile([7]), [REPORT], OneFile([7]), map[]);
    AcceptedIffSameFiles(PLAIN_WORLD, PASSED_GATE, OneFile([7]), [REPORT], OneFile([]), map[]);
    assert map[REPORT := [7]][REPORT] != map[REPORT := []][REPORT];
  }
}
