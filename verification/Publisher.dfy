/**
 Publishing an exported layout: blobs, child manifests, the root under its tag,
 then a check that the tag resolves. The results hold for every registry, and
 therefore for every prefix of every run, including runs that stop on an error.
 */
module Publisher {
  import opened Wrappers
  import opened OciLayout
  import opened OciGraph
  import opened RegistryClient

  datatype PushResult = Published(digest: Digest, authRefreshes: nat) | Refused | NotLoaded(error: LoadError) | Stopped

  predicate IsTagChar(c: char) {
    'A' <= c <= 'Z' || 'a' <= c <= 'z' || '0' <= c <= '9' || c in "_.-"
  }

  /** A tag has at most 128 characters and does not begin with a dot or a dash. */
  predicate IsTag(tag: string) {
    1 <= |tag| <= 128 && tag[0] !in ".-" && forall c | c in tag :: IsTagChar(c)
  }

  lemma TagIsNotDigest(tag: string)
    requires IsTag(tag)
    ensures !IsDigest(tag)
  {
    if |tag| == 71 {
      assert tag[6] in tag && tag[..7][6] == tag[6];
      assert "sha256:"[6] == ':';
    }
  }

  function PushBlobs(g: Registry, l: Layout, s: Session, blobs: seq<Digest>): (Session, bool)
    decreases |blobs|
  {
    if blobs == [] then
      (s, true)
    else if !l.BlobOk(blobs[0]) then
      (s, false)
    else
      var (s1, out) := PushBlob(g, s, blobs[0]);
      if out.Done? then PushBlobs(g, l, s1, blobs[1..]) else (s1, false)
  }

  function PushManifests(g: Registry, s: Session, nodes: seq<Node>): (Session, bool)
    decreases |nodes|
  {
    if nodes == [] then
      (s, true)
    else
      var (s1, out) := PushManifest(g, s, nodes[0].digest, nodes[0]);
      if out.Done? then PushManifests(g, s1, nodes[1..]) else (s1, false)
  }

  /** Everything except the tag: credentials, blobs, then child manifests. */
  function PushContents(g: Registry, l: Layout, graph: Graph): (Session, bool) {
    var (s1, authenticated) := Authenticate(g, FRESH);
    if !authenticated then (s1, false) else
    var (s2, blobsPushed) := PushBlobs(g, l, s1, graph.blobs);
    if !blobsPushed then (s2, false) else
    PushManifests(g, s2, graph.manifests)
  }

  function PushTag(g: Registry, s: Session, root: Node, tag: string): (Session, bool) {
    var (s1, tagged) := PushManifest(g, s, tag, root);
    if !tagged.Done? then (s1, false) else
    var (s2, verified) := VerifyTag(g, s1, tag, root);
    (s2, verified.Done?)
  }

  function PushGraph(g: Registry, l: Layout, graph: Graph, tag: string): (Session, PushResult) {
    var (s1, contentsPushed) := PushContents(g, l, graph);
    if !contentsPushed then (s1, Stopped) else
    var (s2, tagged) := PushTag(g, s1, graph.root, tag);
    (s2, if tagged then Published(graph.root.digest, s2.refreshes) else Stopped)
  }

  function PushLayout(g: Registry, l: Layout, roots: seq<Descriptor>, expected: Digest, tag: string)
    : (Session, PushResult)
  {
    if !IsDigest(expected) || g.maxAuthRetries > MAX_AUTH_RETRIES_LIMIT || !IsTag(tag) then
      (FRESH, Refused)
    else
      match LoadGraph(l, roots, expected)
      case Failure(error) => (FRESH, NotLoaded(error))
      case Success(graph) => PushGraph(g, l, graph, tag)
  }

  method PushOciLayout(client: Client, l: Layout, roots: seq<Descriptor>, expected: Digest, tag: string)
    returns (result: PushResult)
    requires client.Value() == FRESH
    modifies client
    ensures (client.Value(), result) == PushLayout(client.registry, l, roots, expected, tag)
  {
    if !IsDigest(expected) || client.registry.maxAuthRetries > MAX_AUTH_RETRIES_LIMIT || !IsTag(tag) {
      return Refused;
    }
    var loaded := Load(l, roots, expected);
    if loaded.Failure? {
      return NotLoaded(loaded.error);
    }
    var graph := loaded.value;
    var authenticated := client.Refresh();
    if !authenticated {
      return Stopped;
    }
    ghost var s1 := client.Value();
    var i := 0;
    while i < |graph.blobs|
      invariant 0 <= i <= |graph.blobs|
      invariant PushBlobs(client.registry, l, s1, graph.blobs)
             == PushBlobs(client.registry, l, client.Value(), graph.blobs[i..])
    {
      assert graph.blobs[i..][1..] == graph.blobs[i + 1..];
      if !l.BlobOk(graph.blobs[i]) {
        return Stopped;
      }
      var out := client.Push(graph.blobs[i]);
      if !out.Done? {
        return Stopped;
      }
      i := i + 1;
    }
    ghost var s2 := client.Value();
    i := 0;
    while i < |graph.manifests|
      invariant 0 <= i <= |graph.manifests|
      invariant PushManifests(client.registry, s2, graph.manifests)
             == PushManifests(client.registry, client.Value(), graph.manifests[i..])
    {
      assert graph.manifests[i..][1..] == graph.manifests[i + 1..];
      var out := client.PutNode(graph.manifests[i].digest, graph.manifests[i]);
      if !out.Done? {
        return Stopped;
      }
      i := i + 1;
    }
    var tagged := client.PutNode(tag, graph.root);
    if !tagged.Done? {
      return Stopped;
    }
    var verified := client.Verify(tag, graph.root);
    if !verified.Done? {
      return Stopped;
    }
    return Published(graph.root.digest, client.authRefreshes);
  }

  /** An exchange that shows the registry to hold a blob. */
  predicate ConfirmsBlob(x: Exchange, d: Digest) {
    x.reply.Reply? &&
    match x.call
    case HeadBlob(digest) => digest == d && x.reply.status in {200, 302, 307}
    case PutUpload(_, digest) => digest == d && x.reply.status == 201
    case _ => false
  }

  /** An exchange in which the registry accepted exactly this node under this reference. */
  predicate ConfirmsManifest(x: Exchange, reference: string, n: Node) {
    && x.call == PutManifest(reference, n)
    && x.reply.Reply? && x.reply.status == 201
    && (x.reply.contentDigest == "" || x.reply.contentDigest == n.digest)
  }

  ghost predicate HasBlob(log: seq<Exchange>, d: Digest) {
    exists x :: x in log && ConfirmsBlob(x, d)
  }

  ghost predicate HasNode(log: seq<Exchange>, n: Node) {
    exists x :: x in log && ConfirmsManifest(x, n.digest, n)
  }

  ghost predicate HasManifest(l: Layout, log: seq<Exchange>, d: Descriptor) {
    exists n :: IsNodeOf(l, n, d) && HasNode(log, n)
  }

  /** Everything that a manifest refers to directly is known to be in the registry. */
  ghost predicate RefsConfirmed(l: Layout, log: seq<Exchange>, d: Descriptor) {
    && (forall c | c in Kids(l, d) :: HasManifest(l, log, c))
    && (forall b | b in Blobs(l, d) :: HasBlob(log, b))
  }

  /** Everything below the root is known to be in the registry, at any depth. */
  ghost predicate TreeConfirmed(l: Layout, log: seq<Exchange>, root: Descriptor) {
    && (forall d | Below(l, root, d) :: HasManifest(l, log, d))
    && (forall d | Reaches(l, root, d) :: RefsConfirmed(l, log, d))
  }

  predicate IsTagPut(c: Call, tag: string) {
    c.PutManifest? && c.reference == tag
  }

  predicate IsWrite(c: Call) {
    c.PostUpload? || c.PutUpload? || c.PutManifest?
  }

  /** No manifest is sent before everything it refers to is confirmed; the whole tree is, before the tag. */
  ghost predicate SafeLog(l: Layout, log: seq<Exchange>, root: Descriptor, tag: string) {
    && (forall i | 0 <= i < |log| && log[i].call.PutManifest? ::
          RefsConfirmed(l, log[..i], DescriptorOf(log[i].call.node)))
    && (forall i | 0 <= i < |log| && IsTagPut(log[i].call, tag) :: TreeConfirmed(l, log[..i], root))
  }

  ghost predicate TagFree(log: seq<Exchange>, tag: string) {
    forall i | 0 <= i < |log| :: !IsTagPut(log[i].call, tag)
  }

  /** The tag is written last: every later write is the same PUT, repeated with fresh credentials. */
  ghost predicate TagWrittenLast(log: seq<Exchange>, tag: string) {
    forall i, j | 0 <= i < j < |log| && IsTagPut(log[i].call, tag) && IsWrite(log[j].call) ::
      log[j].call == log[i].call
  }

  // ---- What one operation adds to the log ----

  /** Only calls of one subject, and calls for credentials, were added. */
  ghost predicate Adds(s: Session, s': Session, calls: Call -> bool) {
    && s.log <= s'.log
    && forall i | |s.log| <= i < |s'.log| :: calls(s'.log[i].call) || IsAuth(s'.log[i].call)
  }

  lemma AddsTwice(s: Session, s1: Session, s2: Session, calls: Call -> bool)
    requires Adds(s, s1, calls) && Adds(s1, s2, calls)
    ensures Adds(s, s2, calls)
  {
    forall i | |s.log| <= i < |s2.log|
      ensures calls(s2.log[i].call) || IsAuth(s2.log[i].call)
    {
      if i < |s1.log| {
        assert s2.log[i] == s1.log[i];
      }
    }
  }

  lemma AuthenticateAdds(g: Registry, s: Session, calls: Call -> bool)
    ensures var s' := Authenticate(g, s).0;
            && Adds(s, s', calls)
            && s'.refreshes == s.refreshes && s'.slept == s.slept
            && |s'.log| <= |s.log| + (if s.challenge.None? then 2 else 1)
            && (Authenticate(g, s).1 || s.challenge.Some? ==> s'.challenge.Some?)
  {
  }

  lemma {:induction false} RequestAdds(
    g: Registry, s: Session, call: Call, expected: set<int>, retryInPlace: bool, calls: Call -> bool)
    requires calls(call)
    ensures var (s', out) := Request(g, s, call, expected, retryInPlace);
            && Adds(s, s', calls)
            && (out.Done? ==>
                  && |s'.log| > 0 && s'.log[|s'.log| - 1].call == call && s'.log[|s'.log| - 1].reply == out.reply
                  && out.reply.Reply? && out.reply.status in expected)
            && (out.Unauthorized? ==> !retryInPlace)
    decreases g.maxAuthRetries - s.refreshes
  {
    var (s1, reply) := Send(g, s, call, s.authorization);
    assert Adds(s, s1, calls);
    if reply.Reply? && reply.status == 401 && s1.refreshes < g.maxAuthRetries {
      var charged := Charge(s1, reply.challenge);
      var (s2, ok) := Authenticate(g, charged);
      AuthenticateAdds(g, charged, calls);
      AddsTwice(s, charged, s2, calls);
      if ok && retryInPlace {
        RequestAdds(g, s2, call, expected, retryInPlace, calls);
        AddsTwice(s, s2, Request(g, s2, call, expected, retryInPlace).0, calls);
      }
    }
  }

  function BlobCalls(d: Digest): Call -> bool {
    (c: Call) => c == HeadBlob(d) || c.PostUpload? || (c.PutUpload? && c.digest == d)
  }

  function ManifestCalls(reference: string, n: Node): Call -> bool {
    (c: Call) => c == PutManifest(reference, n)
  }

  function CheckCalls(): Call -> bool {
    (c: Call) => c.HeadManifest?
  }

  lemma UploadBlobAdds(g: Registry, s: Session, d: Digest)
    ensures var (s', out) := UploadBlob(g, s, d);
            Adds(s, s', BlobCalls(d)) && (out.Done? ==> HasBlob(s'.log, d))
  {
    var (s1, posted) := Request(g, s, PostUpload, {202}, false);
    RequestAdds(g, s, PostUpload, {202}, false, BlobCalls(d));
    if posted.Done? && posted.reply.location.SameHost? {
      var put := PutUpload(posted.reply.location.url, d);
      RequestAdds(g, s1, put, {201}, false, BlobCalls(d));
      var (s2, out) := Request(g, s1, put, {201}, false);
      AddsTwice(s, s1, s2, BlobCalls(d));
      if out.Done? {
        assert ConfirmsBlob(s2.log[|s2.log| - 1], d);
      }
    }
  }

  lemma {:induction false} UploadUntilAuthorizedAdds(g: Registry, s: Session, d: Digest)
    ensures var (s', out) := UploadUntilAuthorized(g, s, d);
            Adds(s, s', BlobCalls(d)) && (out.Done? ==> HasBlob(s'.log, d))
    decreases g.maxAuthRetries - s.refreshes
  {
    var (s1, out) := UploadBlob(g, s, d);
    UploadBlobAdds(g, s, d);
    if out.Unauthorized? {
      UploadUntilAuthorizedAdds(g, s1, d);
      AddsTwice(s, s1, UploadUntilAuthorized(g, s1, d).0, BlobCalls(d));
    }
  }

  lemma PushBlobAdds(g: Registry, s: Session, d: Digest)
    ensures var (s', out) := PushBlob(g, s, d);
            Adds(s, s', BlobCalls(d)) && (out.Done? ==> HasBlob(s'.log, d))
  {
    var (s1, out) := Request(g, s, HeadBlob(d), {200, 302, 307, 404}, true);
    RequestAdds(g, s, HeadBlob(d), {200, 302, 307, 404}, true, BlobCalls(d));
    if out.Done? && out.reply.status == 404 {
      UploadUntilAuthorizedAdds(g, s1, d);
      AddsTwice(s, s1, PushBlob(g, s, d).0, BlobCalls(d));
    } else if out.Done? {
      assert ConfirmsBlob(s1.log[|s1.log| - 1], d);
    }
  }

  lemma PushManifestAdds(g: Registry, s: Session, reference: string, n: Node)
    ensures var (s', out) := PushManifest(g, s, reference, n);
            && Adds(s, s', ManifestCalls(reference, n))
            && (out.Done? ==> |s'.log| > 0 && ConfirmsManifest(s'.log[|s'.log| - 1], reference, n))
  {
    RequestAdds(g, s, PutManifest(reference, n), {201}, true, ManifestCalls(reference, n));
  }

  // ---- Safety of every prefix ----

  lemma ConfirmedStays(l: Layout, log: seq<Exchange>, log': seq<Exchange>, d: Descriptor)
    requires log <= log' && RefsConfirmed(l, log, d)
    ensures RefsConfirmed(l, log', d)
  {
    forall c | c in Kids(l, d)
      ensures HasManifest(l, log', c)
    {
      assert HasManifest(l, log, c);
    }
    forall b | b in Blobs(l, d)
      ensures HasBlob(log', b)
    {
      assert HasBlob(log, b);
    }
  }

  lemma TreeStays(l: Layout, log: seq<Exchange>, log': seq<Exchange>, root: Descriptor)
    requires log <= log' && TreeConfirmed(l, log, root)
    ensures TreeConfirmed(l, log', root)
  {
    forall d | Reaches(l, root, d)
      ensures RefsConfirmed(l, log', d)
    {
      ConfirmedStays(l, log, log', d);
    }
  }

  /** Calls that write no manifest keep a log safe. */
  lemma QuietAddsKeepSafe(l: Layout, s: Session, s': Session, root: Descriptor, tag: string, calls: Call -> bool)
    requires SafeLog(l, s.log, root, tag) && Adds(s, s', calls)
    requires forall c | calls(c) :: !c.PutManifest?
    ensures SafeLog(l, s'.log, root, tag) && (TagFree(s.log, tag) ==> TagFree(s'.log, tag))
  {
    forall i | 0 <= i < |s'.log| && s'.log[i].call.PutManifest?
      ensures i < |s.log| && s'.log[i] == s.log[i] && s'.log[..i] == s.log[..i]
    {
    }
  }

  /** A manifest whose references are confirmed may be sent, as often as it takes. */
  lemma ManifestKeepsSafe(
    l: Layout, s: Session, s': Session, root: Descriptor, tag: string, reference: string, n: Node)
    requires SafeLog(l, s.log, root, tag) && Adds(s, s', ManifestCalls(reference, n))
    requires RefsConfirmed(l, s.log, DescriptorOf(n))
    requires reference == tag ==> TreeConfirmed(l, s.log, root)
    ensures SafeLog(l, s'.log, root, tag)
  {
    forall i | 0 <= i < |s'.log| && s'.log[i].call.PutManifest?
      ensures RefsConfirmed(l, s'.log[..i], DescriptorOf(s'.log[i].call.node))
      ensures IsTagPut(s'.log[i].call, tag) ==> TreeConfirmed(l, s'.log[..i], root)
    {
      if i < |s.log| {
        assert s'.log[..i] == s.log[..i] && s'.log[i] == s.log[i];
      } else {
        ConfirmedStays(l, s.log, s'.log[..i], DescriptorOf(n));
        if reference == tag {
          TreeStays(l, s.log, s'.log[..i], root);
        }
      }
    }
  }

  lemma {:induction false} PushBlobsSafe(
    g: Registry, l: Layout, s: Session, blobs: seq<Digest>, root: Descriptor, tag: string)
    requires SafeLog(l, s.log, root, tag) && TagFree(s.log, tag)
    ensures var (s', ok) := PushBlobs(g, l, s, blobs);
            && SafeLog(l, s'.log, root, tag) && TagFree(s'.log, tag) && s.log <= s'.log
            && (ok ==> forall b | b in blobs :: HasBlob(s'.log, b))
    decreases |blobs|
  {
    if blobs != [] && l.BlobOk(blobs[0]) {
      var (s1, out) := PushBlob(g, s, blobs[0]);
      PushBlobAdds(g, s, blobs[0]);
      QuietAddsKeepSafe(l, s, s1, root, tag, BlobCalls(blobs[0]));
      if out.Done? {
        PushBlobsSafe(g, l, s1, blobs[1..], root, tag);
        var s' := PushBlobs(g, l, s1, blobs[1..]).0;
        forall b | b in blobs && PushBlobs(g, l, s1, blobs[1..]).1
          ensures HasBlob(s'.log, b)
        {
          assert b == blobs[0] || b in blobs[1..];
        }
      }
    }
  }

  /** These nodes are confirmed, under their own digests. */
  ghost predicate HasNodes(log: seq<Exchange>, nodes: seq<Node>) {
    forall n | n in nodes :: HasNode(log, n)
  }

  ghost predicate HasBlobsOf(l: Layout, log: seq<Exchange>, nodes: seq<Node>) {
    forall n, b | n in nodes && b in Blobs(l, DescriptorOf(n)) :: HasBlob(log, b)
  }

  lemma NextIsReady(l: Layout, log: seq<Exchange>, all: seq<Node>, k: nat)
    requires k < |all| && ChildrenFirst(l, all) && HasNodes(log, all[..k]) && HasBlobsOf(l, log, all)
    ensures RefsConfirmed(l, log, DescriptorOf(all[k]))
  {
    assert all[k] in all;
    forall c | c in Kids(l, DescriptorOf(all[k]))
      ensures HasManifest(l, log, c)
    {
      var m :| m in all[..k] && IsNodeOf(l, m, c);
      assert HasNode(log, m);
    }
  }

  lemma NextWasPushed(l: Layout, log: seq<Exchange>, log': seq<Exchange>, all: seq<Node>, k: nat)
    requires k < |all| && log <= log' && HasNodes(log, all[..k]) && HasBlobsOf(l, log, all)
    requires |log'| > 0 && ConfirmsManifest(log'[|log'| - 1], all[k].digest, all[k])
    ensures HasNodes(log', all[..k + 1]) && HasBlobsOf(l, log', all)
  {
    assert all[..k + 1] == all[..k] + [all[k]];
    assert log'[|log'| - 1] in log';
    forall x | x in log
      ensures x in log'
    {
      var i :| 0 <= i < |log| && log[i] == x;
      assert log'[i] == x;
    }
    forall n, b | n in all && b in Blobs(l, DescriptorOf(n))
      ensures HasBlob(log', b)
    {
      assert HasBlob(log, b);
    }
  }

  lemma OwnDigestKeepsTagFree(s: Session, s': Session, n: Node, tag: string)
    requires TagFree(s.log, tag) && n.digest != tag && Adds(s, s', ManifestCalls(n.digest, n))
    ensures TagFree(s'.log, tag) && s.log <= s'.log
  {
  }

  /** Children first in the list, every blob confirmed: then each manifest is sent after what it refers to. */
  lemma {:induction false} PushManifestsSafe(
    g: Registry, l: Layout, s: Session, all: seq<Node>, k: nat, root: Descriptor, tag: string)
    requires k <= |all| && SafeLog(l, s.log, root, tag) && ChildrenFirst(l, all) && tag !in Digests(all)
    requires HasBlobsOf(l, s.log, all) && HasNodes(s.log, all[..k]) && TagFree(s.log, tag)
    ensures var (s', ok) := PushManifests(g, s, all[k..]);
            && SafeLog(l, s'.log, root, tag) && s.log <= s'.log
            && (ok ==> HasNodes(s'.log, all))
            && TagFree(s'.log, tag)
    decreases |all| - k
  {
    hide SafeLog, ChildrenFirst, HasBlobsOf, HasNodes, TagFree, RefsConfirmed, PushManifest, ConfirmsManifest;
    if k < |all| {
      var n := all[k];
      assert n in all && all[k..][0] == n && all[k..][1..] == all[k + 1..];
      var (s1, out) := PushManifest(g, s, n.digest, n);
      PushManifestAdds(g, s, n.digest, n);
      NextIsReady(l, s.log, all, k);
      ManifestKeepsSafe(l, s, s1, root, tag, n.digest, n);
      OwnDigestKeepsTagFree(s, s1, n, tag);
      if out.Done? {
        NextWasPushed(l, s.log, s1.log, all, k);
        PushManifestsSafe(g, l, s1, all, k + 1, root, tag);
      }
    } else {
      assert all[..k] == all;
    }
  }

  /** Once everything that the walk found is confirmed, so is the whole tree. */
  lemma LoadedMeansTree(l: Layout, roots: seq<Descriptor>, expected: Digest, log: seq<Exchange>)
    requires LoadGraph(l, roots, expected).Success? && OneType(l, roots[0])
    requires var g := LoadGraph(l, roots, expected).value;
             (forall b | b in g.blobs :: HasBlob(log, b)) && HasNodes(log, g.manifests)
    ensures TreeConfirmed(l, log, roots[0])
  {
    LoadedGraphIsExact(l, roots, expected);
    var root := roots[0];
    forall d | Below(l, root, d)
      ensures HasManifest(l, log, d)
    {
    }
    forall d | Reaches(l, root, d)
      ensures RefsConfirmed(l, log, d)
    {
      forall c | c in Kids(l, d)
        ensures HasManifest(l, log, c)
      {
        assert Below(l, root, c);
      }
    }
  }

  lemma AuthenticationIsSafe(g: Registry, l: Layout, root: Descriptor, tag: string)
    ensures var s := Authenticate(g, FRESH).0; SafeLog(l, s.log, root, tag) && TagFree(s.log, tag)
  {
    AuthenticateAdds(g, FRESH, CheckCalls());
    QuietAddsKeepSafe(l, FRESH, Authenticate(g, FRESH).0, root, tag, CheckCalls());
  }

  lemma ContentsAreSafe(g: Registry, l: Layout, roots: seq<Descriptor>, expected: Digest, tag: string)
    requires LoadGraph(l, roots, expected).Success? && IsTag(tag)
    requires OneType(l, roots[0]) && Acyclic(l, roots[0])
    ensures var (s, ok) := PushContents(g, l, LoadGraph(l, roots, expected).value);
            && SafeLog(l, s.log, roots[0], tag) && TagFree(s.log, tag)
            && (ok ==> TreeConfirmed(l, s.log, roots[0]))
  {
    hide Visit, OneType, Acyclic, SafeLog, TagFree, TreeConfirmed;
    var graph, root := LoadGraph(l, roots, expected).value, roots[0];
    var (s1, authenticated) := Authenticate(g, FRESH);
    AuthenticationIsSafe(g, l, root, tag);
    if authenticated {
      var (s2, blobsPushed) := PushBlobs(g, l, s1, graph.blobs);
      PushBlobsSafe(g, l, s1, graph.blobs, root, tag);
      if blobsPushed {
        ManifestPhaseIsSafe(g, l, s2, roots, expected, tag);
      }
    }
  }

  lemma ManifestPhaseIsSafe(g: Registry, l: Layout, s: Session, roots: seq<Descriptor>, expected: Digest, tag: string)
    requires LoadGraph(l, roots, expected).Success? && IsTag(tag)
    requires OneType(l, roots[0]) && Acyclic(l, roots[0]) && SafeLog(l, s.log, roots[0], tag)
    requires forall b | b in LoadGraph(l, roots, expected).value.blobs :: HasBlob(s.log, b)
    requires TagFree(s.log, tag)
    ensures var (s', ok) := PushManifests(g, s, LoadGraph(l, roots, expected).value.manifests);
            && SafeLog(l, s'.log, roots[0], tag)
            && TagFree(s'.log, tag)
            && (ok ==> TreeConfirmed(l, s'.log, roots[0]))
  {
    hide Visit, OneType, Acyclic, SafeLog, TagFree, TreeConfirmed;
    var graph := LoadGraph(l, roots, expected).value;
    LoadedNodes(l, roots, expected, tag);
    assert graph.manifests[0..] == graph.manifests;
    PushManifestsSafe(g, l, s, graph.manifests, 0, roots[0], tag);
    var (s', ok) := PushManifests(g, s, graph.manifests);
    if ok {
      forall b | b in graph.blobs
        ensures HasBlob(s'.log, b)
      {
        assert HasBlob(s.log, b);
      }
      LoadedMeansTree(l, roots, expected, s'.log);
    }
  }

  /** What the push relies on: no node is named like the tag, and every blob of a node was collected. */
  lemma LoadedNodes(l: Layout, roots: seq<Descriptor>, expected: Digest, tag: string)
    requires LoadGraph(l, roots, expected).Success? && IsTag(tag)
    requires OneType(l, roots[0]) && Acyclic(l, roots[0])
    ensures var graph := LoadGraph(l, roots, expected).value;
            && ChildrenFirst(l, graph.manifests)
            && tag !in Digests(graph.manifests)
            && forall n | n in graph.manifests :: forall b | b in Blobs(l, DescriptorOf(n)) :: b in graph.blobs
  {
    var graph, root := LoadGraph(l, roots, expected).value, roots[0];
    LoadedGraphIsExact(l, roots, expected);
    ChildrenFirstIffAcyclic(l, roots, expected);
    TagIsNotDigest(tag);
    forall n | n in graph.manifests
      ensures n.digest != tag && Reaches(l, root, DescriptorOf(n))
    {
      assert Below(l, root, DescriptorOf(n));
      var p :| Reaches(l, root, p) && DescriptorOf(n) in Kids(l, p);
      ReachesKid(l, root, p, DescriptorOf(n));
      assert Good(l, DescriptorOf(n));
    }
  }

  lemma TagPhaseIsSafe(g: Registry, l: Layout, s: Session, root: Descriptor, n: Node, tag: string)
    requires SafeLog(l, s.log, root, tag) && TreeConfirmed(l, s.log, root) && IsNodeOf(l, n, root)
    requires TagFree(s.log, tag)
    ensures var s' := PushTag(g, s, n, tag).0; SafeLog(l, s'.log, root, tag) && TagWrittenLast(s'.log, tag)
  {
    var (s1, tagged) := PushManifest(g, s, tag, n);
    PushManifestAdds(g, s, tag, n);
    var s2 := VerifyTag(g, s1, tag, n).0;
    RequestAdds(g, s1, HeadManifest(tag, n.mediaType), {200}, true, CheckCalls());
    TagLogIsSafe(l, s, s1, if tagged.Done? then s2 else s1, root, n, tag);
  }

  lemma TagLastAfterChecks(s: Session, s1: Session, s2: Session, n: Node, tag: string)
    requires TagFree(s.log, tag) && Adds(s, s1, ManifestCalls(tag, n)) && Adds(s1, s2, CheckCalls())
    ensures TagWrittenLast(s2.log, tag)
  {
    assert forall i | 0 <= i < |s.log| :: s1.log[i] == s.log[i];
    assert forall i | 0 <= i < |s1.log| :: s2.log[i] == s1.log[i];
    forall i | |s.log| <= i < |s2.log| && IsWrite(s2.log[i].call)
      ensures s2.log[i].call == PutManifest(tag, n)
    {
      assert i < |s1.log|;
    }
  }

  lemma TagLogIsSafe(l: Layout, s: Session, s1: Session, s2: Session, root: Descriptor, n: Node, tag: string)
    requires SafeLog(l, s.log, root, tag) && TreeConfirmed(l, s.log, root) && IsNodeOf(l, n, root)
    requires TagFree(s.log, tag)
    requires Adds(s, s1, ManifestCalls(tag, n)) && Adds(s1, s2, CheckCalls())
    ensures SafeLog(l, s2.log, root, tag) && TagWrittenLast(s2.log, tag)
  {
    ReachesSelf(l, root);
    assert DescriptorOf(n) == root;
    ManifestKeepsSafe(l, s, s1, root, tag, tag, n);
    QuietAddsKeepSafe(l, s1, s2, root, tag, CheckCalls());
    TagLastAfterChecks(s, s1, s2, n, tag);
  }

  lemma GraphPushIsSafe(g: Registry, l: Layout, root: Descriptor, expected: Digest, tag: string)
    requires LoadGraph(l, [root], expected).Success? && IsTag(tag)
    requires OneType(l, root) && Acyclic(l, root)
    ensures var s := PushGraph(g, l, LoadGraph(l, [root], expected).value, tag).0;
            SafeLog(l, s.log, root, tag) && TagWrittenLast(s.log, tag)
  {
    var graph := LoadGraph(l, [root], expected).value;
    ContentsAreSafe(g, l, [root], expected, tag);
    LoadedGraphIsExact(l, [root], expected);
    var (s, ok) := PushContents(g, l, graph);
    if ok {
      TagPhaseIsSafe(g, l, s, root, graph.root, tag);
    }
  }

  lemma NothingSentIsSafe(l: Layout, root: Descriptor, tag: string)
    ensures SafeLog(l, FRESH.log, root, tag) && TagWrittenLast(FRESH.log, tag)
  {
  }

  /**
   In every run on an acyclic layout, however the registry answers and wherever
   the run stops: a manifest is sent only after everything it refers to is
   confirmed, the tag only after the whole tree is, and the tag is written last.
   */
  lemma PublishingIsSafe(g: Registry, l: Layout, root: Descriptor, expected: Digest, tag: string)
    requires OneType(l, root) && Acyclic(l, root)
    ensures var (s, _) := PushLayout(g, l, [root], expected, tag);
            SafeLog(l, s.log, root, tag) && TagWrittenLast(s.log, tag)
  {
    hide Visit, OneType, Acyclic, SafeLog, TagWrittenLast, PushGraph;
    NothingSentIsSafe(l, root, tag);
    if IsTag(tag) && LoadGraph(l, [root], expected).Success? {
      GraphPushIsSafe(g, l, root, expected, tag);
    }
  }

  /**
   A normal return means that the registry accepted the root under the tag and
   last reported the tag as resolving to the expected digest.
   */
  lemma PublishedMeansResolved(g: Registry, l: Layout, roots: seq<Descriptor>, expected: Digest, tag: string)
    requires PushLayout(g, l, roots, expected, tag).1.Published?
    ensures var (s, result) := PushLayout(g, l, roots, expected, tag);
            && result == Published(expected, s.refreshes)
            && |s.log| > 0
            && (exists x, n :: x in s.log && ConfirmsManifest(x, tag, n) && n.digest == expected)
            && var last := s.log[|s.log| - 1];
               && last.call.HeadManifest? && last.call.reference == tag
               && last.reply.Reply? && last.reply.status == 200 && last.reply.contentDigest == expected
  {
    var graph := LoadGraph(l, roots, expected).value;
    assert graph.root.digest == expected;
    var s3 := PushContents(g, l, graph).0;
    var s4 := PushManifest(g, s3, tag, graph.root).0;
    PushManifestAdds(g, s3, tag, graph.root);
    RequestAdds(g, s4, HeadManifest(tag, graph.root.mediaType), {200}, true, CheckCalls());
    var s5 := VerifyTag(g, s4, tag, graph.root).0;
    assert s4.log[|s4.log| - 1] == s5.log[|s4.log| - 1];
    assert ConfirmsManifest(s5.log[|s4.log| - 1], tag, graph.root);
  }

  // ---- Termination budget ----

  /** Refreshes stay within the budget, sleep is exactly exponential, and credentials are known. */
  predicate Budgeted(g: Registry, s: Session) {
    && s.refreshes <= g.maxAuthRetries
    && (s.refreshes <= MAX_AUTH_RETRIES_LIMIT ==> s.slept == Pow2(s.refreshes) - 1)
    && s.challenge.Some?
  }

  /** At most fixed requests, and rate more for each credential refresh. */
  predicate Costs(s: Session, s': Session, fixed: nat, rate: nat) {
    s.refreshes <= s'.refreshes && |s'.log| <= |s.log| + fixed + rate * (s'.refreshes - s.refreshes)
  }

  lemma {:induction false} RequestCosts(g: Registry, s: Session, call: Call, expected: set<int>, inPlace: bool)
    requires Budgeted(g, s)
    ensures var (s', out) := Request(g, s, call, expected, inPlace);
            && Budgeted(g, s')
            && Costs(s, s', 1, 2)
            && (!inPlace && out.Unauthorized? ==> Costs(s, s', 0, 2))
            && (!inPlace && out.Done? ==> s'.refreshes == s.refreshes)
    decreases g.maxAuthRetries - s.refreshes
  {
    var (s1, reply) := Send(g, s, call, s.authorization);
    if reply.Reply? && reply.status == 401 && s1.refreshes < g.maxAuthRetries {
      var charged := Charge(s1, reply.challenge);
      PowersFit(s.refreshes);
      AuthenticateAdds(g, charged, CheckCalls());
      var (s2, ok) := Authenticate(g, charged);
      if ok && inPlace {
        RequestCosts(g, s2, call, expected, inPlace);
      }
    }
  }

  /** Below the limit the 30-second cap is never reached. */
  lemma PowersFit(n: nat)
    ensures n < MAX_AUTH_RETRIES_LIMIT ==> Pow2(n) <= 16
  {
    if n < 5 {
      assert Pow2(4) == 16 && Pow2(3) == 8 && Pow2(2) == 4 && Pow2(1) == 2 && Pow2(0) == 1;
    }
  }

  lemma UploadCosts(g: Registry, s: Session, d: Digest)
    requires Budgeted(g, s)
    ensures var (s', out) := UploadBlob(g, s, d);
            && Budgeted(g, s') && Costs(s, s', 2, 3)
            && (out.Unauthorized? ==> Costs(s, s', 0, 3))
  {
    RequestCosts(g, s, PostUpload, {202}, false);
    var (s1, posted) := Request(g, s, PostUpload, {202}, false);
    if posted.Done? && posted.reply.Reply? && posted.reply.location.SameHost? {
      RequestCosts(g, s1, PutUpload(posted.reply.location.url, d), {201}, false);
    }
  }

  lemma {:induction false} UploadUntilAuthorizedCosts(g: Registry, s: Session, d: Digest)
    requires Budgeted(g, s)
    ensures var s' := UploadUntilAuthorized(g, s, d).0; Budgeted(g, s') && Costs(s, s', 2, 3)
    decreases g.maxAuthRetries - s.refreshes
  {
    UploadCosts(g, s, d);
    var (s1, out) := UploadBlob(g, s, d);
    if out.Unauthorized? {
      UploadUntilAuthorizedCosts(g, s1, d);
    }
  }

  lemma PushBlobCosts(g: Registry, s: Session, d: Digest)
    requires Budgeted(g, s)
    ensures var s' := PushBlob(g, s, d).0; Budgeted(g, s') && Costs(s, s', 3, 3)
  {
    RequestCosts(g, s, HeadBlob(d), {200, 302, 307, 404}, true);
    var (s1, out) := Request(g, s, HeadBlob(d), {200, 302, 307, 404}, true);
    if out.Done? && out.reply.Reply? && out.reply.status == 404 {
      UploadUntilAuthorizedCosts(g, s1, d);
    }
  }

  lemma {:induction false} PushBlobsCost(g: Registry, l: Layout, s: Session, blobs: seq<Digest>)
    requires Budgeted(g, s)
    ensures var s' := PushBlobs(g, l, s, blobs).0; Budgeted(g, s') && Costs(s, s', 3 * |blobs|, 3)
    decreases |blobs|
  {
    if blobs != [] && l.BlobOk(blobs[0]) {
      PushBlobCosts(g, s, blobs[0]);
      var (s1, out) := PushBlob(g, s, blobs[0]);
      if out.Done? {
        PushBlobsCost(g, l, s1, blobs[1..]);
      }
    }
  }

  lemma {:induction false} PushManifestsCost(g: Registry, s: Session, nodes: seq<Node>)
    requires Budgeted(g, s)
    ensures var s' := PushManifests(g, s, nodes).0; Budgeted(g, s') && Costs(s, s', |nodes|, 3)
    decreases |nodes|
  {
    if nodes != [] {
      RequestCosts(g, s, PutManifest(nodes[0].digest, nodes[0]), {201}, true);
      var (s1, out) := PushManifest(g, s, nodes[0].digest, nodes[0]);
      if out.Done? {
        PushManifestsCost(g, s1, nodes[1..]);
      }
    }
  }

  lemma ContentsCost(g: Registry, l: Layout, graph: Graph)
    ensures var (s, ok) := PushContents(g, l, graph);
            && Costs(FRESH, s, 2 + 3 * |graph.blobs| + |graph.manifests|, 3)
            && s.refreshes <= g.maxAuthRetries
            && (s.refreshes <= MAX_AUTH_RETRIES_LIMIT ==> s.slept == Pow2(s.refreshes) - 1)
            && (ok ==> Budgeted(g, s))
  {
    AuthenticateAdds(g, FRESH, CheckCalls());
    var (s1, authenticated) := Authenticate(g, FRESH);
    if authenticated {
      PushBlobsCost(g, l, s1, graph.blobs);
      var (s2, blobsPushed) := PushBlobs(g, l, s1, graph.blobs);
      if blobsPushed {
        PushManifestsCost(g, s2, graph.manifests);
      }
    }
  }

  lemma TagCosts(g: Registry, s: Session, n: Node, tag: string)
    requires Budgeted(g, s)
    ensures var s' := PushTag(g, s, n, tag).0; Budgeted(g, s') && Costs(s, s', 2, 3)
  {
    RequestCosts(g, s, PutManifest(tag, n), {201}, true);
    var (s1, tagged) := PushManifest(g, s, tag, n);
    RequestCosts(g, s1, HeadManifest(tag, n.mediaType), {200}, true);
  }

  lemma GraphPushCosts(g: Registry, l: Layout, graph: Graph, tag: string)
    ensures var s := PushGraph(g, l, graph, tag).0;
            && s.refreshes <= g.maxAuthRetries
            && (s.refreshes <= MAX_AUTH_RETRIES_LIMIT ==> s.slept == Pow2(s.refreshes) - 1)
            && |s.log| <= 3 * |graph.blobs| + |graph.manifests| + 4 + 3 * s.refreshes
  {
    ContentsCost(g, l, graph);
    var (s1, ok) := PushContents(g, l, graph);
    if ok {
      TagCosts(g, s1, graph.root, tag);
    }
  }

  lemma SmallPowers(n: nat)
    requires n <= MAX_AUTH_RETRIES_LIMIT
    ensures 1 <= Pow2(n) <= 32
  {
    assert Pow2(5) == 2 * Pow2(4) && Pow2(4) == 2 * Pow2(3) && Pow2(3) == 2 * Pow2(2);
  }

  /**
   The nested refresh loops share one budget: refreshes never exceed it, the run
   sleeps exactly 2^refreshes - 1 seconds and hence at most 31, and it sends a
   bounded number of requests.
   */
  lemma PublishingIsBounded(g: Registry, l: Layout, roots: seq<Descriptor>, expected: Digest, tag: string)
    ensures var s := PushLayout(g, l, roots, expected, tag).0;
            && s.refreshes <= g.maxAuthRetries
            && s.slept == Pow2(s.refreshes) - 1
            && s.slept <= 31
            && (LoadGraph(l, roots, expected).Success? ==>
                  var graph := LoadGraph(l, roots, expected).value;
                  |s.log| <= 3 * |graph.blobs| + |graph.manifests| + 4 + 3 * s.refreshes)
  {
    if LoadGraph(l, roots, expected).Success? {
      GraphPushCosts(g, l, LoadGraph(l, roots, expected).value, tag);
    }
    var s := PushLayout(g, l, roots, expected, tag).0;
    if s.refreshes <= MAX_AUTH_RETRIES_LIMIT {
      SmallPowers(s.refreshes);
    }
  }
}
