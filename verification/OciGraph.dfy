/**
 What the walk over an exported layout delivers, stated against reachability in
 the graph that the documents themselves describe.
 */
module OciGraph {
  import opened Wrappers
  import opened Collections
  import opened OciLayout

  /** The descriptors that an index lists, and the blobs that an image manifest names. */
  ghost function Kids(l: Layout, d: Descriptor): set<Descriptor> {
    if d.digest in l.files && d.mediaType in INDEX_MEDIA_TYPES && l.decode(l.files[d.digest]).Some? then
      set i | i in l.decode(l.files[d.digest]).value.manifests && i.Mapping? :: i.descriptor
    else
      {}
  }

  ghost function BlobItems(l: Layout, d: Descriptor): seq<Item> {
    if d.digest in l.files && d.mediaType in MANIFEST_MEDIA_TYPES && l.decode(l.files[d.digest]).Some? then
      [l.decode(l.files[d.digest]).value.config] + l.decode(l.files[d.digest]).value.layers
    else
      []
  }

  ghost function Blobs(l: Layout, d: Descriptor): set<Digest> {
    set i | i in BlobItems(l, d) && i.Mapping? :: i.descriptor.digest
  }

  /** Everything that the walk checks about one descriptor. */
  ghost predicate Good(l: Layout, d: Descriptor) {
    && l.BlobOk(d.digest)
    && l.decode(l.files[d.digest]).Some?
    && var document := l.decode(l.files[d.digest]).value;
       if d.mediaType in INDEX_MEDIA_TYPES then
         forall i | i in document.manifests :: i.Mapping?
       else
         && d.mediaType in MANIFEST_MEDIA_TYPES
         && forall i | i in BlobItems(l, d) :: i.Mapping? && l.BlobOk(i.descriptor.digest)
  }

  ghost predicate Path(l: Layout, p: seq<Descriptor>) {
    |p| > 0 && forall i | 0 < i < |p| :: p[i] in Kids(l, p[i - 1])
  }

  ghost predicate Reaches(l: Layout, a: Descriptor, b: Descriptor) {
    exists p :: Path(l, p) && p[0] == a && p[|p| - 1] == b
  }

  /** Reached from the root by at least one step. */
  ghost predicate Below(l: Layout, root: Descriptor, d: Descriptor) {
    exists p :: Reaches(l, root, p) && d in Kids(l, p)
  }

  /** No digest is described under two media types. */
  ghost predicate OneType(l: Layout, root: Descriptor) {
    forall a, b | Reaches(l, root, a) && Reaches(l, root, b) && a.digest == b.digest :: a == b
  }

  ghost predicate Acyclic(l: Layout, root: Descriptor) {
    forall p | Path(l, p) && |p| > 1 && Reaches(l, root, p[0]) :: p[0] != p[|p| - 1]
  }

  function DescriptorOf(n: Node): Descriptor {
    Descriptor(n.digest, n.mediaType)
  }

  ghost predicate IsNodeOf(l: Layout, n: Node, d: Descriptor) {
    d.digest in l.files && n == Node(d.mediaType, d.digest, l.files[d.digest])
  }

  predicate DistinctDigests(nodes: seq<Node>) {
    forall i, j | 0 <= i < j < |nodes| :: nodes[i].digest != nodes[j].digest
  }

  ghost predicate ChildrenFirst(l: Layout, nodes: seq<Node>) {
    forall i, c | 0 <= i < |nodes| && c in Kids(l, DescriptorOf(nodes[i])) ::
      exists n :: n in nodes[..i] && IsNodeOf(l, n, c)
  }

  ghost predicate Recorded(l: Layout, c: Descriptor, w: Walk) {
    c.digest in w.seen && exists n :: n in w.manifests && IsNodeOf(l, n, c)
  }

  /** p passed every check and everything directly under it has been recorded. */
  ghost predicate Finished(l: Layout, p: Descriptor, w: Walk) {
    && Good(l, p)
    && (forall c | c in Kids(l, p) :: Recorded(l, c, w))
    && (forall b | b in Blobs(l, p) :: b in w.blobs)
  }

  /** A set of descriptors closed under listing, in which a digest has one media type. */
  ghost predicate Closed(l: Layout, r: iset<Descriptor>) {
    && (forall p, c | p in r && c in Kids(l, p) :: c in r)
    && (forall a, b | a in r && b in r && a.digest == b.digest :: a == b)
  }

  ghost predicate Listed(l: Layout, r: iset<Descriptor>, d: Descriptor) {
    exists p :: p in r && d in Kids(l, p)
  }

  ghost predicate Named(l: Layout, r: iset<Descriptor>, b: Digest) {
    exists p :: p in r && b in Blobs(l, p)
  }

  /** What the walk has visited is finished, except for the descriptors still on its stack. */
  ghost predicate Complete(l: Layout, r: iset<Descriptor>, w: Walk, stack: set<Descriptor>) {
    forall p | p in r && p.digest in w.seen :: p in stack || Finished(l, p, w)
  }

  /** What the walk has collected comes from the graph, once each. */
  ghost predicate Sound(l: Layout, r: iset<Descriptor>, w: Walk) {
    && Distinct(w.blobs)
    && DistinctDigests(w.manifests)
    && (forall n | n in w.manifests :: IsNodeOf(l, n, DescriptorOf(n)) && Listed(l, r, DescriptorOf(n)))
    && (forall b | b in w.blobs :: Named(l, r, b))
  }

  ghost predicate Grows(w: Walk, w': Walk) {
    w.blobs <= w'.blobs && w.manifests <= w'.manifests && w.seen <= w'.seen
  }

  lemma FinishedStays(l: Layout, p: Descriptor, w: Walk, w': Walk)
    requires Finished(l, p, w) && Grows(w, w')
    ensures Finished(l, p, w')
  {
    forall c | c in Kids(l, p)
      ensures Recorded(l, c, w')
    {
      assert Recorded(l, c, w);
    }
  }

  lemma CompleteStays(l: Layout, r: iset<Descriptor>, w: Walk, w': Walk, stack: set<Descriptor>)
    requires Complete(l, r, w, stack) && Grows(w, w') && w'.seen == w.seen
    ensures Complete(l, r, w', stack)
  {
    forall p | p in r && p.digest in w'.seen && p !in stack
      ensures Finished(l, p, w')
    {
      FinishedStays(l, p, w, w');
    }
  }

  /** Marking a descriptor as seen puts it on the stack. */
  lemma EnterKeeps(l: Layout, r: iset<Descriptor>, d: Descriptor, w: Walk, stack: set<Descriptor>)
    requires Closed(l, r) && d in r && Complete(l, r, w, stack) && Sound(l, r, w)
    ensures Complete(l, r, w.(seen := w.seen + {d.digest}), stack + {d})
    ensures Sound(l, r, w.(seen := w.seen + {d.digest}))
  {
    var w' := w.(seen := w.seen + {d.digest});
    forall p | p in r && p.digest in w'.seen && p !in stack + {d}
      ensures Finished(l, p, w')
    {
      FinishedStays(l, p, w, w');
    }
  }

  /** Visiting an index that was not seen before is visiting its children. */
  lemma VisitIndex(l: Layout, d: Descriptor, w: Walk)
    requires Visit(l, d, w).Success? && d.digest !in w.seen && d.mediaType in INDEX_MEDIA_TYPES
    ensures d.digest in l.files && l.decode(l.files[d.digest]).Some?
    ensures var entered := w.(seen := w.seen + {d.digest});
            && VisitChildren(l, l.decode(l.files[d.digest]).value.manifests, entered)
               == Success(Visit(l, d, w).value.1)
            && forall i | i in l.decode(l.files[d.digest]).value.manifests && i.Mapping? :: i.descriptor in Kids(l, d)
  {
  }

  lemma ImageKeeps(l: Layout, r: iset<Descriptor>, d: Descriptor, w: Walk, stack: set<Descriptor>)
    requires d in r && d.digest !in w.seen && d.mediaType !in INDEX_MEDIA_TYPES
    requires Sound(l, r, w) && Visit(l, d, w).Success?
    requires Complete(l, r, w.(seen := w.seen + {d.digest}), stack + {d})
    ensures var w' := Visit(l, d, w).value.1;
            Complete(l, r, w', stack + {d}) && Sound(l, r, w') && Grows(w, w') && Finished(l, d, w')
  {
    var w' := Visit(l, d, w).value.1;
    var entered := w.(seen := w.seen + {d.digest});
    AddBlobsAdds(l, BlobItems(l, d), entered.blobs);
    CompleteStays(l, r, entered, w', stack + {d});
    forall b | b in w'.blobs
      ensures Named(l, r, b)
    {
      assert b in w.blobs || b in Blobs(l, d);
    }
  }

  lemma {:induction false} VisitKeeps(l: Layout, r: iset<Descriptor>, d: Descriptor, w: Walk, stack: set<Descriptor>)
    requires Closed(l, r) && d in r
    requires Complete(l, r, w, stack) && Sound(l, r, w) && Visit(l, d, w).Success?
    ensures var (n, w') := Visit(l, d, w).value;
            && Complete(l, r, w', stack) && Sound(l, r, w') && Grows(w, w')
            && IsNodeOf(l, n, d) && d.digest in w'.seen
    decreases |l.files.Keys - w.seen|, 0
  {
    if d.digest !in w.seen {
      var w' := Visit(l, d, w).value.1;
      var entered := w.(seen := w.seen + {d.digest});
      Shrinks(l.files.Keys, w.seen, d.digest);
      EnterKeeps(l, r, d, w, stack);
      if d.mediaType in INDEX_MEDIA_TYPES {
        VisitIndex(l, d, w);
        ChildrenKeep(l, r, d, l.decode(l.files[d.digest]).value.manifests, entered, stack + {d});
      } else {
        ImageKeeps(l, r, d, w, stack);
      }
      assert Finished(l, d, w');
    }
  }

  /** Visiting a list of items is visiting the first one, recording it, and visiting the others. */
  lemma VisitFirst(l: Layout, items: seq<Item>, w: Walk)
    requires items != [] && VisitChildren(l, items, w).Success?
    ensures items[0].Mapping? && Visit(l, items[0].descriptor, w).Success?
    ensures var (node, below) := Visit(l, items[0].descriptor, w).value;
            && VisitChildren(l, items, w) == VisitChildren(l, items[1..], Add(below, node))
            && |l.files.Keys - Add(below, node).seen| <= |l.files.Keys - w.seen|
  {
    var (node, below) := Visit(l, items[0].descriptor, w).value;
    Narrows(l.files.Keys, w.seen, below.seen);
  }

  lemma {:induction false} ChildrenKeep(
    l: Layout, r: iset<Descriptor>, d: Descriptor, items: seq<Item>, w: Walk, stack: set<Descriptor>)
    requires Closed(l, r) && d in r
    requires forall i | i in items && i.Mapping? :: i.descriptor in Kids(l, d)
    requires Complete(l, r, w, stack) && Sound(l, r, w) && VisitChildren(l, items, w).Success?
    ensures var w' := VisitChildren(l, items, w).value;
            && Complete(l, r, w', stack) && Sound(l, r, w') && Grows(w, w')
            && forall i | i in items :: i.Mapping? && Recorded(l, i.descriptor, w')
    decreases |l.files.Keys - w.seen|, |items|
  {
    if items != [] {
      var c := items[0].descriptor;
      VisitFirst(l, items, w);
      VisitKeeps(l, r, c, w, stack);
      var (node, below) := Visit(l, c, w).value;
      var w1 := Add(below, node);
      AddKeeps(l, r, c, node, below, stack);
      ChildrenKeep(l, r, d, items[1..], w1, stack);
      RecordedStays(l, c, w1, VisitChildren(l, items, w).value);
    }
  }

  lemma RecordedStays(l: Layout, c: Descriptor, w: Walk, w': Walk)
    requires Recorded(l, c, w) && Grows(w, w')
    ensures Recorded(l, c, w')
  {
  }

  lemma AddKeeps(l: Layout, r: iset<Descriptor>, c: Descriptor, n: Node, w: Walk, stack: set<Descriptor>)
    requires Closed(l, r) && c in r && Listed(l, r, c)
    requires Complete(l, r, w, stack) && Sound(l, r, w) && IsNodeOf(l, n, c) && c.digest in w.seen
    ensures var w' := Add(w, n);
            Complete(l, r, w', stack) && Sound(l, r, w') && Grows(w, w') && Recorded(l, c, w')
  {
    var w' := Add(w, n);
    if n.digest in Digests(w.manifests) {
      var m :| m in w.manifests && m.digest == n.digest;
      assert Listed(l, r, DescriptorOf(m));
      assert DescriptorOf(m) == c;
    } else {
      assert w'.manifests[|w.manifests|] == n && DescriptorOf(n) == c;
      CompleteStays(l, r, w, w', stack);
    }
  }

  lemma {:induction false} AddBlobsAdds(l: Layout, items: seq<Item>, blobs: seq<Digest>)
    requires Distinct(blobs) && AddBlobs(l, items, blobs).Success?
    ensures var r := AddBlobs(l, items, blobs).value;
            && Distinct(r) && blobs <= r
            && (forall i | i in items :: i.Mapping? && l.BlobOk(i.descriptor.digest) && i.descriptor.digest in r)
            && (forall b | b in r :: b in blobs || exists i :: i in items && i.Mapping? && i.descriptor.digest == b)
  {
    if items != [] {
      var blob := items[0].descriptor.digest;
      var blobs' := if blob in blobs then blobs else blobs + [blob];
      AddBlobsAdds(l, items[1..], blobs');
      var r := AddBlobs(l, items, blobs).value;
      assert blob in blobs' && blobs' <= r;
      assert r == AddBlobs(l, items[1..], blobs').value;
      forall i | i in items
        ensures i.Mapping? && l.BlobOk(i.descriptor.digest) && i.descriptor.digest in r
      {
        assert i == items[0] || i in items[1..];
      }
      forall b | b in r && b !in blobs
        ensures exists i :: i in items && i.Mapping? && i.descriptor.digest == b
      {
        if b == blob {
          assert items[0] in items;
        } else {
          var i :| i in items[1..] && i.Mapping? && i.descriptor.digest == b;
          assert i in items;
        }
      }
    }
  }

  /** Every descriptor on the stack lies between the root and d. */
  ghost predicate OnPath(l: Layout, root: Descriptor, d: Descriptor, stack: set<Descriptor>) {
    forall s | s in stack + {d} :: Reaches(l, root, s) && Reaches(l, s, d)
  }

  /** While a walk is below the descriptors of its stack, an acyclic graph keeps children in front of parents. */
  lemma {:induction false} VisitOrders(
    l: Layout, root: Descriptor, r: iset<Descriptor>, d: Descriptor, w: Walk, stack: set<Descriptor>)
    requires Closed(l, r) && d in r
    requires Complete(l, r, w, stack) && Sound(l, r, w) && Visit(l, d, w).Success?
    requires Acyclic(l, root) && ChildrenFirst(l, w.manifests)
    requires OnPath(l, root, d, stack)
    ensures ChildrenFirst(l, Visit(l, d, w).value.1.manifests)
    decreases |l.files.Keys - w.seen|, 0
  {
    hide Sound, Complete, ChildrenFirst, Acyclic, Closed;
    if d.digest !in w.seen && d.mediaType in INDEX_MEDIA_TYPES {
      var entered := w.(seen := w.seen + {d.digest});
      Shrinks(l.files.Keys, w.seen, d.digest);
      EnterKeeps(l, r, d, w, stack);
      VisitIndex(l, d, w);
      assert stack + {d} + {d} == stack + {d};
      ChildrenOrder(l, root, r, d, l.decode(l.files[d.digest]).value.manifests, entered, stack + {d});
    } else {
      OthersAddNoManifest(l, d, w);
    }
  }

  lemma OthersAddNoManifest(l: Layout, d: Descriptor, w: Walk)
    requires Visit(l, d, w).Success? && (d.digest in w.seen || d.mediaType !in INDEX_MEDIA_TYPES)
    ensures Visit(l, d, w).value.1.manifests == w.manifests
  {
  }

  lemma {:induction false} ChildrenOrder(
    l: Layout, root: Descriptor, r: iset<Descriptor>, d: Descriptor, items: seq<Item>, w: Walk, stack: set<Descriptor>)
    requires Closed(l, r) && d in r
    requires forall i | i in items && i.Mapping? :: i.descriptor in Kids(l, d)
    requires Complete(l, r, w, stack) && Sound(l, r, w) && VisitChildren(l, items, w).Success?
    requires Acyclic(l, root) && ChildrenFirst(l, w.manifests)
    requires OnPath(l, root, d, stack)
    ensures ChildrenFirst(l, VisitChildren(l, items, w).value.manifests)
    decreases |l.files.Keys - w.seen|, |items|
  {
    if items != [] {
      var c := items[0].descriptor;
      VisitFirst(l, items, w);
      DeeperStack(l, root, d, c, stack);
      VisitKeeps(l, r, c, w, stack);
      VisitOrders(l, root, r, c, w, stack);
      var (node, below) := Visit(l, c, w).value;
      AddKeeps(l, r, c, node, below, stack);
      AddOrders(l, c, node, below);
      ChildrenOrder(l, root, r, d, items[1..], Add(below, node), stack);
    }
  }

  lemma AddOrders(l: Layout, c: Descriptor, n: Node, w: Walk)
    requires IsNodeOf(l, n, c) && Finished(l, c, w) && ChildrenFirst(l, w.manifests)
    ensures ChildrenFirst(l, Add(w, n).manifests)
  {
    var nodes := Add(w, n).manifests;
    forall i, k | 0 <= i < |nodes| && k in Kids(l, DescriptorOf(nodes[i]))
      ensures exists m :: m in nodes[..i] && IsNodeOf(l, m, k)
    {
      if i < |w.manifests| {
        assert nodes[..i] == w.manifests[..i] && nodes[i] == w.manifests[i];
      } else {
        assert nodes[..i] == w.manifests && DescriptorOf(nodes[i]) == c;
        assert Recorded(l, k, w);
      }
    }
  }

  lemma ReachesSelf(l: Layout, a: Descriptor)
    ensures Reaches(l, a, a)
  {
    assert Path(l, [a]) && [a][0] == a;
  }

  lemma ReachesKid(l: Layout, a: Descriptor, b: Descriptor, c: Descriptor)
    requires Reaches(l, a, b) && c in Kids(l, b)
    ensures Reaches(l, a, c)
  {
    var p :| Path(l, p) && p[0] == a && p[|p| - 1] == b;
    PathExtends(l, p, c);
  }

  lemma PathExtends(l: Layout, p: seq<Descriptor>, c: Descriptor)
    requires Path(l, p) && c in Kids(l, p[|p| - 1])
    ensures Path(l, p + [c]) && (p + [c])[0] == p[0] && (p + [c])[|p|] == c
  {
    var q := p + [c];
    forall i | 0 < i < |q|
      ensures q[i] in Kids(l, q[i - 1])
    {
      if i < |p| {
        assert q[i] == p[i] && q[i - 1] == p[i - 1];
      }
    }
  }

  /** A descriptor that lists one of its own ancestors closes a cycle. */
  lemma BackEdge(l: Layout, root: Descriptor, s: Descriptor, d: Descriptor)
    requires Reaches(l, root, s) && Reaches(l, s, d) && s in Kids(l, d)
    ensures !Acyclic(l, root)
  {
    var p :| Path(l, p) && p[0] == s && p[|p| - 1] == d;
    PathExtends(l, p, s);
    var q := p + [s];
    assert q[0] == q[|q| - 1];
  }

  lemma DeeperStack(l: Layout, root: Descriptor, d: Descriptor, c: Descriptor, stack: set<Descriptor>)
    requires c in Kids(l, d) && Acyclic(l, root)
    requires OnPath(l, root, d, stack)
    ensures c !in stack
    ensures OnPath(l, root, c, stack)
  {
    if c in stack {
      BackEdge(l, root, c, d);
    }
    ReachesSelf(l, c);
    ReachesKid(l, root, d, c);
    forall s | s in stack
      ensures Reaches(l, s, c)
    {
      ReachesKid(l, s, d, c);
    }
  }

  ghost function Reachable(l: Layout, root: Descriptor): iset<Descriptor> {
    iset d | Reaches(l, root, d)
  }

  lemma ReachableIsClosed(l: Layout, root: Descriptor)
    requires OneType(l, root)
    ensures Closed(l, Reachable(l, root)) && root in Reachable(l, root)
  {
    ReachesSelf(l, root);
    forall p, c | Reaches(l, root, p) && c in Kids(l, p)
      ensures Reaches(l, root, c)
    {
      ReachesKid(l, root, p, c);
    }
  }

  /** Every reachable descriptor is finished, by induction along a path. */
  lemma {:induction false} PathFinished(l: Layout, r: iset<Descriptor>, w: Walk, p: seq<Descriptor>)
    requires Closed(l, r) && Complete(l, r, w, {})
    requires Path(l, p) && p[0] in r && p[0].digest in w.seen
    ensures p[|p| - 1] in r && p[|p| - 1].digest in w.seen && Finished(l, p[|p| - 1], w)
  {
    if |p| > 1 {
      PathFinished(l, r, w, p[..|p| - 1]);
      assert Recorded(l, p[|p| - 1], w);
    }
  }

  /** The final accumulators, as the start of every result below. */
  lemma WalkFromRoot(l: Layout, roots: seq<Descriptor>, expected: Digest) returns (w: Walk)
    requires LoadGraph(l, roots, expected).Success? && OneType(l, roots[0])
    ensures Visit(l, roots[0], Walk([], [], {})).Success? && w == Visit(l, roots[0], Walk([], [], {})).value.1
    ensures var g := LoadGraph(l, roots, expected).value;
            g.blobs == w.blobs && g.manifests == w.manifests && IsNodeOf(l, g.root, roots[0])
    ensures Sound(l, Reachable(l, roots[0]), w)
    ensures forall d | Reaches(l, roots[0], d) :: Finished(l, d, w)
    ensures Acyclic(l, roots[0]) ==> ChildrenFirst(l, w.manifests)
  {
    var root := roots[0];
    var r := Reachable(l, root);
    var start := Walk([], [], {});
    w := Visit(l, root, start).value.1;
    ReachableIsClosed(l, root);
    VisitKeeps(l, r, root, start, {});
    forall d | Reaches(l, root, d)
      ensures Finished(l, d, w)
    {
      var p :| Path(l, p) && p[0] == root && p[|p| - 1] == d;
      PathFinished(l, r, w, p);
    }
    if Acyclic(l, root) {
      VisitOrders(l, root, r, root, start, {});
    }
  }

  /**
   The loaded graph is exact: both lists are free of duplicates, the manifests
   are those strictly below the root, the blobs are the configurations and
   layers of every reachable image manifest, and all of them passed their checks.
   */
  lemma LoadedGraphIsExact(l: Layout, roots: seq<Descriptor>, expected: Digest)
    requires LoadGraph(l, roots, expected).Success?
    requires OneType(l, roots[0])
    ensures var g, root := LoadGraph(l, roots, expected).value, roots[0];
            && IsNodeOf(l, g.root, root) && root.digest == expected
            && Distinct(g.blobs) && DistinctDigests(g.manifests)
            && (forall n | n in g.manifests :: IsNodeOf(l, n, DescriptorOf(n)))
            && (forall d :: Below(l, root, d) <==> exists n :: n in g.manifests && IsNodeOf(l, n, d))
            && (forall b :: b in g.blobs <==> exists d :: Reaches(l, root, d) && b in Blobs(l, d))
            && (forall d | Reaches(l, root, d) :: Good(l, d))
  {
    var root, r := roots[0], Reachable(l, roots[0]);
    var g := LoadGraph(l, roots, expected).value;
    var w := WalkFromRoot(l, roots, expected);
    forall d
      ensures Below(l, root, d) <==> exists n :: n in g.manifests && IsNodeOf(l, n, d)
    {
      if Below(l, root, d) {
        var p :| Reaches(l, root, p) && d in Kids(l, p);
        assert Finished(l, p, w);
        assert Recorded(l, d, w);
      }
      if n :| n in g.manifests && IsNodeOf(l, n, d) {
        assert DescriptorOf(n) == d && Listed(l, r, d);
      }
    }
    forall b
      ensures b in g.blobs <==> exists d :: Reaches(l, root, d) && b in Blobs(l, d)
    {
      if b in g.blobs {
        assert Named(l, r, b);
      }
      if d :| Reaches(l, root, d) && b in Blobs(l, d) {
        assert Finished(l, d, w);
      }
    }
  }

  lemma {:induction false} GoodVisitSucceeds(l: Layout, r: iset<Descriptor>, d: Descriptor, w: Walk)
    requires d in r && forall p | p in r :: Good(l, p) && forall c | c in Kids(l, p) :: c in r
    ensures Visit(l, d, w).Success?
    decreases |l.files.Keys - w.seen|, 0
  {
    assert Good(l, d);
    if d.digest !in w.seen {
      var document := l.decode(l.files[d.digest]).value;
      Shrinks(l.files.Keys, w.seen, d.digest);
      if d.mediaType in INDEX_MEDIA_TYPES {
        GoodChildrenSucceed(l, r, document.manifests, w.(seen := w.seen + {d.digest}));
      } else {
        assert BlobItems(l, d) == [document.config] + document.layers;
        GoodBlobsSucceed(l, BlobItems(l, d), w.blobs);
      }
    }
  }

  lemma {:induction false} GoodChildrenSucceed(l: Layout, r: iset<Descriptor>, items: seq<Item>, w: Walk)
    requires forall p | p in r :: Good(l, p) && forall c | c in Kids(l, p) :: c in r
    requires forall i | i in items :: i.Mapping? && i.descriptor in r
    ensures VisitChildren(l, items, w).Success?
    decreases |l.files.Keys - w.seen|, |items|
  {
    if items != [] {
      GoodVisitSucceeds(l, r, items[0].descriptor, w);
      var (node, below) := Visit(l, items[0].descriptor, w).value;
      Narrows(l.files.Keys, w.seen, below.seen);
      GoodChildrenSucceed(l, r, items[1..], Add(below, node));
    }
  }

  lemma {:induction false} GoodBlobsSucceed(l: Layout, items: seq<Item>, blobs: seq<Digest>)
    requires forall i | i in items :: i.Mapping? && l.BlobOk(i.descriptor.digest)
    ensures AddBlobs(l, items, blobs).Success?
  {
    if items != [] {
      var blob := items[0].descriptor.digest;
      GoodBlobsSucceed(l, items[1..], if blob in blobs then blobs else blobs + [blob]);
    }
  }

  /** Any layout in which everything reachable from the root passes its checks is loaded. */
  lemma AllGoodLoads(l: Layout, root: Descriptor)
    requires forall d | Reaches(l, root, d) :: Good(l, d)
    ensures LoadGraph(l, [root], root.digest).Success?
  {
    ReachesSelf(l, root);
    forall p, c | Reaches(l, root, p) && c in Kids(l, p)
      ensures Reaches(l, root, c)
    {
      ReachesKid(l, root, p, c);
    }
    GoodVisitSucceeds(l, Reachable(l, root), root, Walk([], [], {}));
  }

  /** A layout with the expected root is loaded exactly when everything reachable from the root passes its checks. */
  lemma LoadsIffAllReachableGood(l: Layout, root: Descriptor)
    requires OneType(l, root)
    ensures LoadGraph(l, [root], root.digest).Success? <==> forall d | Reaches(l, root, d) :: Good(l, d)
  {
    if LoadGraph(l, [root], root.digest).Success? {
      LoadedGraphIsExact(l, [root], root.digest);
    }
    if forall d | Reaches(l, root, d) :: Good(l, d) {
      AllGoodLoads(l, root);
    }
  }

  /** When children come first, the position of a node strictly falls along any path. */
  lemma {:induction false} PathFalls(l: Layout, nodes: seq<Node>, p: seq<Descriptor>, i: nat) returns (j: nat)
    requires ChildrenFirst(l, nodes)
    requires Path(l, p) && i < |nodes| && IsNodeOf(l, nodes[i], p[0])
    ensures j < |nodes| && IsNodeOf(l, nodes[j], p[|p| - 1])
    ensures j <= i && (|p| > 1 ==> j < i)
  {
    if |p| == 1 {
      j := i;
    } else {
      assert DescriptorOf(nodes[i]) == p[0];
      var n :| n in nodes[..i] && IsNodeOf(l, n, p[1]);
      var k :| 0 <= k < i && nodes[k] == n;
      forall m | 0 < m < |p[1..]|
        ensures p[1..][m] in Kids(l, p[1..][m - 1])
      {
        assert p[m + 1] in Kids(l, p[m]);
      }
      j := PathFalls(l, nodes, p[1..], k);
    }
  }

  /** A cycle cannot be ordered children first without repeating a manifest. */
  lemma CycleCannotBeOrdered(l: Layout, nodes: seq<Node>, p: seq<Descriptor>, n: Node)
    requires Path(l, p) && |p| > 1 && p[0] == p[|p| - 1]
    requires n in nodes && IsNodeOf(l, n, p[0]) && DistinctDigests(nodes)
    ensures !ChildrenFirst(l, nodes)
  {
    if ChildrenFirst(l, nodes) {
      var i :| 0 <= i < |nodes| && nodes[i] == n;
      var j := PathFalls(l, nodes, p, i);
      assert false;
    }
  }

  lemma {:induction false} LeadsTo(l: Layout, root: Descriptor, p: seq<Descriptor>)
    requires Path(l, p) && Reaches(l, root, p[0])
    ensures Reaches(l, root, p[|p| - 1])
  {
    if |p| > 1 {
      var q := p[..|p| - 1];
      LeadsTo(l, root, q);
      ReachesKid(l, root, q[|q| - 1], p[|p| - 1]);
    }
  }

  /**
   The manifests come out children first exactly when the reachable graph has
   no cycle; then the root is not among them.
   */
  lemma ChildrenFirstIffAcyclic(l: Layout, roots: seq<Descriptor>, expected: Digest)
    requires LoadGraph(l, roots, expected).Success?
    requires OneType(l, roots[0])
    ensures var g := LoadGraph(l, roots, expected).value;
            && (ChildrenFirst(l, g.manifests) <==> Acyclic(l, roots[0]))
            && (Acyclic(l, roots[0]) ==> g.root.digest !in Digests(g.manifests))
  {
    var root := roots[0];
    var g := LoadGraph(l, roots, expected).value;
    var _ := WalkFromRoot(l, roots, expected);
    LoadedGraphIsExact(l, roots, expected);
    if !Acyclic(l, root) {
      CyclicIsNotOrdered(l, root, g.manifests);
    }
    if n :| n in g.manifests && n.digest == g.root.digest {
      RootListed(l, root, n);
    }
  }

  lemma CyclicIsNotOrdered(l: Layout, root: Descriptor, nodes: seq<Node>)
    requires !Acyclic(l, root)
    requires forall d | Below(l, root, d) :: exists n :: n in nodes && IsNodeOf(l, n, d)
    requires DistinctDigests(nodes)
    ensures !ChildrenFirst(l, nodes)
  {
    var p :| Path(l, p) && |p| > 1 && Reaches(l, root, p[0]) && p[0] == p[|p| - 1];
    var q := p[..|p| - 1];
    LeadsTo(l, root, q);
    assert p[|p| - 1] in Kids(l, q[|q| - 1]);
    assert Below(l, root, p[0]);
    var n :| n in nodes && IsNodeOf(l, n, p[0]);
    CycleCannotBeOrdered(l, nodes, p, n);
  }

  lemma RootListed(l: Layout, root: Descriptor, n: Node)
    requires OneType(l, root) && n.digest == root.digest && Below(l, root, DescriptorOf(n))
    ensures !Acyclic(l, root)
  {
    var p :| Reaches(l, root, p) && DescriptorOf(n) in Kids(l, p);
    ReachesKid(l, root, p, DescriptorOf(n));
    ReachesSelf(l, root);
    BackEdge(l, root, root, p);
  }

  // ---- Why one media type per digest is needed ----

  /** Every descriptor below the root has its node in the list. */
  ghost predicate Covers(l: Layout, root: Descriptor, nodes: seq<Node>) {
    forall d | Below(l, root, d) :: exists n :: n in nodes && IsNodeOf(l, n, d)
  }

  lemma ReachedIsBelow(l: Layout, root: Descriptor, d: Descriptor)
    requires Reaches(l, root, d) && d != root
    ensures Below(l, root, d)
  {
    var p :| Path(l, p) && p[0] == root && p[|p| - 1] == d;
    var q := p[..|p| - 1];
    assert forall i | 0 <= i < |q| :: q[i] == p[i];
    assert Path(l, q) && q[0] == root;
    assert d in Kids(l, q[|q| - 1]);
  }

  lemma CoveredNode(l: Layout, root: Descriptor, nodes: seq<Node>, d: Descriptor) returns (n: Node)
    requires Covers(l, root, nodes) && Reaches(l, root, d) && d != root
    ensures n in nodes && IsNodeOf(l, n, d) && d.digest in Digests(nodes)
  {
    ReachedIsBelow(l, root, d);
    n :| n in nodes && IsNodeOf(l, n, d);
  }

  /** A list of nodes, one per digest and without the root's, that covers the graph allows one media type only. */
  lemma CoveredMeansOneType(l: Layout, root: Descriptor, nodes: seq<Node>)
    requires Covers(l, root, nodes) && DistinctDigests(nodes) && root.digest !in Digests(nodes)
    ensures OneType(l, root)
  {
    forall a, b | Reaches(l, root, a) && Reaches(l, root, b) && a.digest == b.digest
      ensures a == b
    {
      if a != root {
        var m := CoveredNode(l, root, nodes, a);
        if b != root {
          var n := CoveredNode(l, root, nodes, b);
          SameDigestSameNode(nodes, m, n);
        }
      } else if b != root {
        var _ := CoveredNode(l, root, nodes, b);
      }
    }
  }

  lemma SameDigestSameNode(nodes: seq<Node>, m: Node, n: Node)
    requires DistinctDigests(nodes) && m in nodes && n in nodes && m.digest == n.digest
    ensures m == n
  {
  }

  /** A list of nodes without repetition, without the root, that covers exactly the graph, children first. */
  ghost predicate IsExactOrder(l: Layout, root: Descriptor, nodes: seq<Node>) {
    && DistinctDigests(nodes) && root.digest !in Digests(nodes) && ChildrenFirst(l, nodes)
    && forall d :: Below(l, root, d) <==> exists n :: n in nodes && IsNodeOf(l, n, d)
  }

  /** Moreover exactly the blobs of reachable images, once each, and nothing that fails a check. */
  ghost predicate IsExactGraph(l: Layout, root: Descriptor, g: Graph) {
    && IsExactOrder(l, root, g.manifests)
    && Distinct(g.blobs) && (forall b :: b in g.blobs <==> exists d :: Reaches(l, root, d) && b in Blobs(l, d))
    && (forall d | Reaches(l, root, d) :: Good(l, d))
  }

  /**
   What was loaded is exactly the graph below the root, children first, if and only
   if the graph has one media type per digest and no cycle.
   */
  lemma ExactGraphIff(l: Layout, roots: seq<Descriptor>, expected: Digest)
    requires LoadGraph(l, roots, expected).Success?
    ensures IsExactGraph(l, roots[0], LoadGraph(l, roots, expected).value) <==>
            OneType(l, roots[0]) && Acyclic(l, roots[0])
  {
    hide ChildrenFirst, Acyclic, Good, Blobs;
    var root, g := roots[0], LoadGraph(l, roots, expected).value;
    if IsExactGraph(l, root, g) {
      CoveredMeansOneType(l, root, g.manifests);
      if !Acyclic(l, root) {
        CyclicIsNotOrdered(l, root, g.manifests);
      }
    }
    if OneType(l, root) && Acyclic(l, root) {
      LoadedGraphIsExact(l, roots, expected);
      ChildrenFirstIffAcyclic(l, roots, expected);
    }
  }

  ghost predicate Collected(l: Layout, w: Walk) {
    DistinctDigests(w.manifests) && forall b | b in w.blobs :: l.BlobOk(b)
  }

  /** Whatever the graph, each digest is collected once, and every collected blob passed its check. */
  lemma {:induction false} VisitCollects(l: Layout, d: Descriptor, w: Walk)
    requires Collected(l, w) && Visit(l, d, w).Success?
    ensures Collected(l, Visit(l, d, w).value.1)
    ensures IsNodeOf(l, Visit(l, d, w).value.0, d)
    decreases |l.files.Keys - w.seen|, 0
  {
    if d.digest !in w.seen {
      var entered := w.(seen := w.seen + {d.digest});
      Shrinks(l.files.Keys, w.seen, d.digest);
      if d.mediaType in INDEX_MEDIA_TYPES {
        VisitIndex(l, d, w);
        ChildrenCollect(l, l.decode(l.files[d.digest]).value.manifests, entered);
      } else {
        BlobsCollect(l, BlobItems(l, d), entered.blobs);
      }
    }
  }

  lemma {:induction false} ChildrenCollect(l: Layout, items: seq<Item>, w: Walk)
    requires Collected(l, w) && VisitChildren(l, items, w).Success?
    ensures Collected(l, VisitChildren(l, items, w).value)
    decreases |l.files.Keys - w.seen|, |items|
  {
    if items != [] {
      VisitFirst(l, items, w);
      VisitCollects(l, items[0].descriptor, w);
      var (node, below) := Visit(l, items[0].descriptor, w).value;
      ChildrenCollect(l, items[1..], Add(below, node));
    }
  }

  lemma {:induction false} BlobsCollect(l: Layout, items: seq<Item>, blobs: seq<Digest>)
    requires (forall b | b in blobs :: l.BlobOk(b)) && AddBlobs(l, items, blobs).Success?
    ensures forall b | b in AddBlobs(l, items, blobs).value :: l.BlobOk(b)
  {
    if items != [] {
      var blob := items[0].descriptor.digest;
      BlobsCollect(l, items[1..], if blob in blobs then blobs else blobs + [blob]);
    }
  }
}
