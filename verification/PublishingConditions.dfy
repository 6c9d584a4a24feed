/**
 Exactly which layouts are published safely: if a graph has a cycle or a digest
 under two media types, some registry sees an unsafe run.
 */
module PublishingConditions {
  import opened Wrappers
  import opened OciLayout
  import opened OciGraph
  import opened OciShapes
  import opened RegistryClient
  import opened Publisher

  /** The root goes out under the tag only. */
  ghost predicate RootSentByTag(log: seq<Exchange>, root: Descriptor, tag: string) {
    forall i | 0 <= i < |log| && log[i].call.PutManifest? && log[i].call.node.digest == root.digest ::
      log[i].call.reference == tag
  }

  ghost predicate SafeRun(g: Registry, l: Layout, root: Descriptor, expected: Digest, tag: string) {
    var log := PushLayout(g, l, [root], expected, tag).0.log;
    SafeLog(l, log, root, tag) && TagWrittenLast(log, tag) && RootSentByTag(log, root, tag)
  }

  // ---- Which manifests a run sends ----

  /** A loaded node under its digest, the root under the tag, or any other call that is not for credentials. */
  function GraphCalls(graph: Graph, tag: string): Call -> bool {
    (c: Call) =>
      if c.PutManifest? then
        (c.node in graph.manifests && c.reference == c.node.digest) || (c.node == graph.root && c.reference == tag)
      else
        !c.GetBase? && !c.GetToken?
  }

  lemma AddsMore(s: Session, s': Session, some: Call -> bool, more: Call -> bool)
    requires Adds(s, s', some) && forall c | some(c) :: more(c)
    ensures Adds(s, s', more)
  {
  }

  lemma {:induction false} BlobsAdd(g: Registry, l: Layout, s: Session, blobs: seq<Digest>, calls: Call -> bool)
    requires forall c: Call | !c.PutManifest? && !c.GetBase? && !c.GetToken? :: calls(c)
    ensures Adds(s, PushBlobs(g, l, s, blobs).0, calls)
    decreases |blobs|
  {
    if blobs != [] && l.BlobOk(blobs[0]) {
      var (s1, out) := PushBlob(g, s, blobs[0]);
      PushBlobAdds(g, s, blobs[0]);
      AddsMore(s, s1, BlobCalls(blobs[0]), calls);
      if out.Done? {
        BlobsAdd(g, l, s1, blobs[1..], calls);
        AddsTwice(s, s1, PushBlobs(g, l, s1, blobs[1..]).0, calls);
      }
    }
  }

  lemma {:induction false} ManifestsAdd(g: Registry, s: Session, nodes: seq<Node>, calls: Call -> bool)
    requires forall n | n in nodes :: calls(PutManifest(n.digest, n))
    ensures Adds(s, PushManifests(g, s, nodes).0, calls)
    decreases |nodes|
  {
    if nodes != [] {
      var n := nodes[0];
      var (s1, out) := PushManifest(g, s, n.digest, n);
      PushManifestAdds(g, s, n.digest, n);
      AddsMore(s, s1, ManifestCalls(n.digest, n), calls);
      if out.Done? {
        ManifestsAdd(g, s1, nodes[1..], calls);
        AddsTwice(s, s1, PushManifests(g, s1, nodes[1..]).0, calls);
      }
    }
  }

  lemma ContentsAdd(g: Registry, l: Layout, graph: Graph, tag: string)
    ensures Adds(FRESH, PushContents(g, l, graph).0, GraphCalls(graph, tag))
  {
    var calls := GraphCalls(graph, tag);
    AuthenticateAdds(g, FRESH, calls);
    var (s1, authenticated) := Authenticate(g, FRESH);
    if authenticated {
      BlobsAdd(g, l, s1, graph.blobs, calls);
      var (s2, pushed) := PushBlobs(g, l, s1, graph.blobs);
      AddsTwice(FRESH, s1, s2, calls);
      if pushed {
        ManifestsAdd(g, s2, graph.manifests, calls);
        AddsTwice(FRESH, s2, PushManifests(g, s2, graph.manifests).0, calls);
      }
    }
  }

  lemma TagAdds(g: Registry, s: Session, graph: Graph, tag: string)
    ensures Adds(s, PushTag(g, s, graph.root, tag).0, GraphCalls(graph, tag))
  {
    var calls := GraphCalls(graph, tag);
    var (s1, tagged) := PushManifest(g, s, tag, graph.root);
    PushManifestAdds(g, s, tag, graph.root);
    AddsMore(s, s1, ManifestCalls(tag, graph.root), calls);
    if tagged.Done? {
      RequestAdds(g, s1, HeadManifest(tag, graph.root.mediaType), {200}, true, calls);
      AddsTwice(s, s1, VerifyTag(g, s1, tag, graph.root).0, calls);
    }
  }

  lemma GraphAdds(g: Registry, l: Layout, graph: Graph, tag: string)
    ensures Adds(FRESH, PushGraph(g, l, graph, tag).0, GraphCalls(graph, tag))
  {
    ContentsAdd(g, l, graph, tag);
    var (s1, pushed) := PushContents(g, l, graph);
    if pushed {
      TagAdds(g, s1, graph, tag);
      AddsTwice(FRESH, s1, PushTag(g, s1, graph.root, tag).0, GraphCalls(graph, tag));
    }
  }

  lemma RootIsNotSentByDigest(g: Registry, l: Layout, root: Descriptor, expected: Digest, tag: string)
    requires LoadGraph(l, [root], expected).Success?
    requires root.digest !in Digests(LoadGraph(l, [root], expected).value.manifests)
    ensures RootSentByTag(PushGraph(g, l, LoadGraph(l, [root], expected).value, tag).0.log, root, tag)
  {
    GraphAdds(g, l, LoadGraph(l, [root], expected).value, tag);
  }

  /** In every run, whatever challenges it meets, credentials are traded for a token at allowed realms only. */
  lemma TokensComeFromAllowedRealms(g: Registry, l: Layout, roots: seq<Descriptor>, expected: Digest, tag: string)
    ensures var log := PushLayout(g, l, roots, expected, tag).0.log;
            forall i | 0 <= i < |log| && log[i].call.GetToken? :: AllowedRealm(log[i].call.realm)
  {
    if IsTag(tag) && LoadGraph(l, roots, expected).Success? {
      GraphAdds(g, l, LoadGraph(l, roots, expected).value, tag);
    }
  }

  // ---- A registry that accepts everything ----

  const CREATED := Reply(201, None, NoLocation, "", "")
  const FOUND := Reply(200, None, NoLocation, "", "")

  const ACCEPTING := Registry(
    (_: seq<Exchange>, c: Call, _: Option<string>) => if c.PutManifest? then CREATED else FOUND, "", 0)

  function AfterCall(s: Session, c: Call): Session {
    s.(log := s.log + [Exchange(c, s.authorization, if c.PutManifest? then CREATED else FOUND)])
  }

  lemma AcceptingRequest(s: Session, c: Call, expected: set<int>, retryInPlace: bool)
    ensures Request(ACCEPTING, s, c, expected, retryInPlace).0 == AfterCall(s, c)
    ensures (if c.PutManifest? then 201 else 200) in expected ==>
              Request(ACCEPTING, s, c, expected, retryInPlace).1 == Done(if c.PutManifest? then CREATED else FOUND)
  {
  }

  lemma AcceptingManifest(s: Session, reference: string, n: Node)
    ensures PushManifest(ACCEPTING, s, reference, n) == (AfterCall(s, PutManifest(reference, n)), Done(CREATED))
  {
    AcceptingRequest(s, PutManifest(reference, n), {201}, true);
  }

  ghost predicate NoManifests(log: seq<Exchange>) {
    forall i | 0 <= i < |log| :: !log[i].call.PutManifest?
  }

  lemma {:induction false} AcceptingBlobs(l: Layout, s: Session, blobs: seq<Digest>)
    requires NoManifests(s.log) && forall b | b in blobs :: l.BlobOk(b)
    ensures var (s', ok) := PushBlobs(ACCEPTING, l, s, blobs); ok && NoManifests(s'.log)
    decreases |blobs|
  {
    if blobs != [] {
      AcceptingRequest(s, HeadBlob(blobs[0]), {200, 302, 307, 404}, true);
      AcceptingBlobs(l, AfterCall(s, HeadBlob(blobs[0])), blobs[1..]);
    }
  }

  /** The exchanges in which these nodes are accepted. */
  function Puts(authorization: Option<string>, nodes: seq<Node>): seq<Exchange> {
    seq(|nodes|, i requires 0 <= i < |nodes| =>
          Exchange(PutManifest(nodes[i].digest, nodes[i]), authorization, CREATED))
  }

  lemma {:induction false} AcceptingManifests(s: Session, nodes: seq<Node>)
    ensures PushManifests(ACCEPTING, s, nodes) == (s.(log := s.log + Puts(s.authorization, nodes)), true)
    decreases |nodes|
  {
    if nodes == [] {
      assert s.log + Puts(s.authorization, nodes) == s.log;
    } else {
      var n := nodes[0];
      AcceptingManifest(s, n.digest, n);
      var s1 := AfterCall(s, PutManifest(n.digest, n));
      AcceptingManifests(s1, nodes[1..]);
      assert s1.log + Puts(s.authorization, nodes[1..]) == s.log + Puts(s.authorization, nodes);
    }
  }

  /** The log of a run on this registry begins with these exchanges and the tag. */
  ghost predicate IsAcceptedLog(log: seq<Exchange>, before: seq<Exchange>, nodes: seq<Node>, root: Node, tag: string) {
    && NoManifests(before)
    && exists a: Option<string> ::
         before + Puts(a, nodes) + [Exchange(PutManifest(tag, root), a, CREATED)] <= log
  }

  lemma AcceptedRun(l: Layout, graph: Graph, tag: string) returns (before: seq<Exchange>)
    requires forall b | b in graph.blobs :: l.BlobOk(b)
    ensures IsAcceptedLog(PushGraph(ACCEPTING, l, graph, tag).0.log, before, graph.manifests, graph.root, tag)
  {
    var (s1, authenticated) := Authenticate(ACCEPTING, FRESH);
    assert authenticated && NoManifests(s1.log);
    AcceptingBlobs(l, s1, graph.blobs);
    var s2 := PushBlobs(ACCEPTING, l, s1, graph.blobs).0;
    before := s2.log;
    AcceptingManifests(s2, graph.manifests);
    var s3 := s2.(log := s2.log + Puts(s2.authorization, graph.manifests));
    AcceptingManifest(s3, tag, graph.root);
    var s4 := AfterCall(s3, PutManifest(tag, graph.root));
    RequestAdds(ACCEPTING, s4, HeadManifest(tag, graph.root.mediaType), {200}, true, CheckCalls());
  }

  // ---- What a safe log says about the graph ----

  lemma ConfirmedWasPut(before: seq<Exchange>, a: Option<string>, nodes: seq<Node>, n: Node)
    requires NoManifests(before) && HasNode(before + Puts(a, nodes), n)
    ensures n in nodes
  {
    var log := before + Puts(a, nodes);
    var x :| x in log && ConfirmsManifest(x, n.digest, n);
    var i :| 0 <= i < |log| && log[i] == x;
    assert i >= |before|;
    assert Puts(a, nodes)[i - |before|] == x;
  }

  lemma SafeLogOrders(
    l: Layout, log: seq<Exchange>, before: seq<Exchange>, nodes: seq<Node>, rootNode: Node, root: Descriptor,
    tag: string)
    requires IsAcceptedLog(log, before, nodes, rootNode, tag) && SafeLog(l, log, root, tag)
    ensures ChildrenFirst(l, nodes) && Covers(l, root, nodes)
  {
    var a: Option<string> :| before + Puts(a, nodes) + [Exchange(PutManifest(tag, rootNode), a, CREATED)] <= log;
    var sent := before + Puts(a, nodes) + [Exchange(PutManifest(tag, rootNode), a, CREATED)];
    assert forall i | 0 <= i < |sent| :: log[i] == sent[i];
    var t := |before| + |nodes|;
    assert log[t] == sent[t] && log[..t] == before + Puts(a, nodes);
    assert TreeConfirmed(l, log[..t], root);
    forall d | Below(l, root, d)
      ensures exists n :: n in nodes && IsNodeOf(l, n, d)
    {
      var n :| IsNodeOf(l, n, d) && HasNode(log[..t], n);
      ConfirmedWasPut(before, a, nodes, n);
    }
    forall k, c | 0 <= k < |nodes| && c in Kids(l, DescriptorOf(nodes[k]))
      ensures exists n :: n in nodes[..k] && IsNodeOf(l, n, c)
    {
      var i := |before| + k;
      assert log[i] == sent[i] == Puts(a, nodes)[k];
      assert RefsConfirmed(l, log[..i], DescriptorOf(nodes[k]));
      assert log[..i] == before + Puts(a, nodes[..k]);
      var n :| IsNodeOf(l, n, c) && HasNode(log[..i], n);
      ConfirmedWasPut(before, a, nodes[..k], n);
    }
  }

  lemma RootStaysOut(
    log: seq<Exchange>, before: seq<Exchange>, nodes: seq<Node>, rootNode: Node, root: Descriptor, tag: string)
    requires IsAcceptedLog(log, before, nodes, rootNode, tag) && RootSentByTag(log, root, tag)
    requires root.digest != tag
    ensures root.digest !in Digests(nodes)
  {
    var a: Option<string> :| before + Puts(a, nodes) + [Exchange(PutManifest(tag, rootNode), a, CREATED)] <= log;
    var sent := before + Puts(a, nodes) + [Exchange(PutManifest(tag, rootNode), a, CREATED)];
    forall k | 0 <= k < |nodes|
      ensures nodes[k].digest != root.digest
    {
      assert log[|before| + k] == sent[|before| + k] == Puts(a, nodes)[k];
    }
  }

  lemma LoadedIsCollected(l: Layout, root: Descriptor, expected: Digest)
    requires LoadGraph(l, [root], expected).Success?
    ensures var graph := LoadGraph(l, [root], expected).value;
            && DistinctDigests(graph.manifests) && (forall b | b in graph.blobs :: l.BlobOk(b))
            && IsDigest(expected) && root.digest == expected
  {
    VisitCollects(l, root, Walk([], [], {}));
  }

  const PLAIN_TAG := "v1"

  lemma SafeEverywhereMeansExact(l: Layout, root: Descriptor, expected: Digest)
    requires LoadGraph(l, [root], expected).Success?
    requires SafeRun(ACCEPTING, l, root, expected, PLAIN_TAG)
    ensures OneType(l, root) && Acyclic(l, root)
  {
    var graph := LoadGraph(l, [root], expected).value;
    LoadedIsCollected(l, root, expected);
    assert IsTag(PLAIN_TAG);
    TagIsNotDigest(PLAIN_TAG);
    var log := PushGraph(ACCEPTING, l, graph, PLAIN_TAG).0.log;
    var before := AcceptedRun(l, graph, PLAIN_TAG);
    SafeLogOrders(l, log, before, graph.manifests, graph.root, root, PLAIN_TAG);
    RootStaysOut(log, before, graph.manifests, graph.root, root, PLAIN_TAG);
    CoveredMeansOneType(l, root, graph.manifests);
    if !Acyclic(l, root) {
      CyclicIsNotOrdered(l, root, graph.manifests);
    }
  }

  lemma ExactMeansSafeEverywhere(g: Registry, l: Layout, root: Descriptor, expected: Digest, tag: string)
    requires OneType(l, root) && Acyclic(l, root)
    ensures SafeRun(g, l, root, expected, tag)
  {
    hide Visit, OneType, Acyclic, SafeLog, TagWrittenLast, RootSentByTag, PushGraph;
    PublishingIsSafe(g, l, root, expected, tag);
    NothingSentYet(root, tag);
    if LoadGraph(l, [root], expected).Success? {
      ChildrenFirstIffAcyclic(l, [root], expected);
      LoadedIsCollected(l, root, expected);
      RootDigest(l, root, expected);
      RootIsNotSentByDigest(g, l, root, expected, tag);
    }
  }

  lemma NothingSentYet(root: Descriptor, tag: string)
    ensures RootSentByTag(FRESH.log, root, tag)
  {
  }

  lemma RootDigest(l: Layout, root: Descriptor, expected: Digest)
    requires LoadGraph(l, [root], expected).Success?
    ensures LoadGraph(l, [root], expected).value.root.digest == root.digest
  {
  }

  /**
   A layout that loads is published safely by every registry and under every tag
   if and only if its graph has one media type per digest and no cycle. Safely
   means: a manifest is sent only after everything it refers to is confirmed, the
   tag only after the whole tree is, and as the last write, and the root under
   its tag only.
   */
  lemma PublishingIsSafeIff(l: Layout, root: Descriptor, expected: Digest)
    requires LoadGraph(l, [root], expected).Success?
    ensures (forall g, tag :: SafeRun(g, l, root, expected, tag)) <==> OneType(l, root) && Acyclic(l, root)
  {
    if OneType(l, root) && Acyclic(l, root) {
      forall g, tag
        ensures SafeRun(g, l, root, expected, tag)
      {
        ExactMeansSafeEverywhere(g, l, root, expected, tag);
      }
    }
    if SafeRun(ACCEPTING, l, root, expected, PLAIN_TAG) {
      SafeEverywhereMeansExact(l, root, expected);
    }
  }

  // ---- Why the root must not be sent under its digest ----

  /** An index that lists its own digest again under a type that is neither index nor image. */
  ghost predicate ListsOwnDigest(l: Layout, root: Descriptor, other: Descriptor) {
    && l.BlobOk(root.digest) && IsIndex(root) && l.decode(l.files[root.digest]).Some?
    && other.digest == root.digest && !IsIndex(other) && other.mediaType !in MANIFEST_MEDIA_TYPES
    && l.decode(l.files[root.digest]).value.manifests == [Mapping(other)]
  }

  /** One file: an index that lists its own digest as something else. */
  function OwnListing(): Layout {
    var other := Descriptor(Digest64('a'), "other");
    Layout(map[Digest64('a') := []], (_: Bytes) => Digest64('a'),
           (_: Bytes) => Some(Document([Mapping(other)], NotMapping, [])))
  }

  lemma OwnListingExists()
    ensures ListsOwnDigest(OwnListing(), Descriptor(Digest64('a'), INDEX_TYPE), Descriptor(Digest64('a'), "other"))
  {
    assert Digest64('a')[..7] == "sha256:";
    assert forall t | t in INDEX_MEDIA_TYPES + MANIFEST_MEDIA_TYPES :: |t| > 5;
  }

  function NodeOf(l: Layout, d: Descriptor): Node
    requires d.digest in l.files
  {
    Node(d.mediaType, d.digest, l.files[d.digest])
  }

  lemma OwnDigestLoads(l: Layout, root: Descriptor, other: Descriptor)
    requires ListsOwnDigest(l, root, other)
    ensures LoadGraph(l, [root], root.digest) == Success(Graph([], [NodeOf(l, other)], NodeOf(l, root)))
    ensures Kids(l, root) == {other} && Kids(l, other) == {} && Blobs(l, other) == {} && Blobs(l, root) == {}
  {
    var items, start := l.decode(l.files[root.digest]).value.manifests, Walk([], [], {root.digest});
    var node := NodeOf(l, other);
    SeenAddsNothing(l, other, start);
    assert {} + {root.digest} == {root.digest};
    assert Add(start, node) == Walk([], [node], {root.digest});
    assert VisitChildren(l, items, start) == VisitChildren(l, items[1..], Add(start, node));
    assert items[0] in items;
    IndexIsNoImage(root);
  }

  lemma IndexIsNoImage(d: Descriptor)
    requires IsIndex(d)
    ensures d.mediaType !in MANIFEST_MEDIA_TYPES
  {
    assert forall t | t in INDEX_MEDIA_TYPES :: |t| == 39 || |t| == 57;
    assert forall t | t in MANIFEST_MEDIA_TYPES :: |t| == 42 || |t| == 52;
  }

  lemma OwnDigestTree(l: Layout, root: Descriptor, other: Descriptor, log: seq<Exchange>)
    requires ListsOwnDigest(l, root, other)
    requires HasNode(log, NodeOf(l, other))
    ensures TreeConfirmed(l, log, root)
  {
    hide Reaches;
    OwnDigestLoads(l, root, other);
    assert HasManifest(l, log, other);
    forall d | Reaches(l, root, d)
      ensures RefsConfirmed(l, log, d)
    {
      ReachesIff(l, root, d);
    }
    forall d | Below(l, root, d)
      ensures HasManifest(l, log, d)
    {
      var p :| Reaches(l, root, p) && d in Kids(l, p);
      ReachesIff(l, root, p);
    }
  }

  lemma OwnDigestContents(g: Registry, l: Layout, root: Descriptor, other: Descriptor, tag: string)
    requires ListsOwnDigest(l, root, other) && IsTag(tag)
    ensures var (s, ok) := PushContents(g, l, Graph([], [NodeOf(l, other)], NodeOf(l, root)));
            SafeLog(l, s.log, root, tag) && TagFree(s.log, tag) && (ok ==> TreeConfirmed(l, s.log, root))
  {
    OwnDigestLoads(l, root, other);
    var graph := Graph([], [NodeOf(l, other)], NodeOf(l, root));
    var (s1, authenticated) := Authenticate(g, FRESH);
    AuthenticationIsSafe(g, l, root, tag);
    if authenticated {
      assert PushBlobs(g, l, s1, graph.blobs) == (s1, true);
      TagIsNotDigest(tag);
      assert graph.manifests[0..] == graph.manifests && DescriptorOf(graph.manifests[0]) == other;
      PushManifestsSafe(g, l, s1, graph.manifests, 0, root, tag);
      var (s2, ok) := PushManifests(g, s1, graph.manifests);
      if ok {
        assert graph.manifests[0] in graph.manifests && HasNode(s2.log, graph.manifests[0]);
        OwnDigestTree(l, root, other, s2.log);
      }
    }
  }

  /**
   Order alone does not rule out two media types: the root may be sent under its
   own digest as something else, with every reference confirmed and the tag last.
   */
  lemma OrderAloneAllowsTwoTypes(g: Registry, l: Layout, root: Descriptor, other: Descriptor, tag: string)
    requires ListsOwnDigest(l, root, other)
    ensures !OneType(l, root)
    ensures var log := PushLayout(g, l, [root], root.digest, tag).0.log;
            SafeLog(l, log, root, tag) && TagWrittenLast(log, tag)
  {
    OwnDigestLoads(l, root, other);
    ReachesSelf(l, root);
    ReachesKid(l, root, root, other);
    NothingSentIsSafe(l, root, tag);
    if IsTag(tag) {
      var graph := LoadGraph(l, [root], root.digest).value;
      OwnDigestContents(g, l, root, other, tag);
      var (s, ok) := PushContents(g, l, graph);
      if ok {
        TagPhaseIsSafe(g, l, s, root, graph.root, tag);
      } else {
        TagFreeIsLast(s.log, tag);
      }
    }
  }

  lemma TagFreeIsLast(log: seq<Exchange>, tag: string)
    requires TagFree(log, tag)
    ensures TagWrittenLast(log, tag)
  {
  }
}
