/**
 Shapes of layouts: the index of images that a build exports meets what the
 results about the walk assume, and a digest under two media types does not.
 */
module OciShapes {
  import opened Wrappers
  import opened OciLayout
  import opened OciGraph

  predicate IsIndex(d: Descriptor) {
    d.mediaType in INDEX_MEDIA_TYPES
  }

  /** An index whose children are images, all of which pass the checks. */
  ghost predicate IsIndexOfImages(l: Layout, root: Descriptor) {
    IsIndex(root) && Good(l, root) && forall c | c in Kids(l, root) :: Good(l, c) && !IsIndex(c)
  }

  lemma LongPathHasGrandchild(l: Layout, p: seq<Descriptor>)
    requires Path(l, p) && |p| > 2
    ensures p[1] in Kids(l, p[0]) && p[2] in Kids(l, p[1])
  {
  }

  /** Nothing that the root lists lists anything. */
  ghost predicate IsFlat(l: Layout, root: Descriptor) {
    forall c | c in Kids(l, root) :: Kids(l, c) == {}
  }

  lemma PathsAreShort(l: Layout, root: Descriptor, p: seq<Descriptor>)
    requires IsFlat(l, root) && Path(l, p) && p[0] == root
    ensures |p| == 1 || (|p| == 2 && p[1] in Kids(l, root))
  {
    if |p| > 2 {
      LongPathHasGrandchild(l, p);
    }
  }

  lemma ReachesIff(l: Layout, root: Descriptor, d: Descriptor)
    requires IsFlat(l, root)
    ensures Reaches(l, root, d) <==> d == root || d in Kids(l, root)
  {
    if Reaches(l, root, d) {
      var p :| Path(l, p) && p[0] == root && p[|p| - 1] == d;
      PathsAreShort(l, root, p);
    }
    ReachesSelf(l, root);
    if d in Kids(l, root) {
      ReachesKid(l, root, root, d);
    }
  }

  /**
   An index of images is acyclic and is loaded; it has one media type per digest
   exactly when no digest is listed twice with different types.
   */
  lemma IndexOfImagesIsLoaded(l: Layout, root: Descriptor)
    requires IsIndexOfImages(l, root)
    ensures Acyclic(l, root)
    ensures OneType(l, root) <==>
            (forall a, b | a in Kids(l, root) && b in Kids(l, root) && a.digest == b.digest :: a == b)
            && forall c | c in Kids(l, root) :: c.digest != root.digest
    ensures LoadGraph(l, [root], root.digest).Success?
  {
    forall d
      ensures Reaches(l, root, d) <==> d == root || d in Kids(l, root)
    {
      ReachesIff(l, root, d);
    }
    forall p | Path(l, p) && |p| > 1 && Reaches(l, root, p[0])
      ensures p[0] != p[|p| - 1]
    {
      assert p[1] in Kids(l, p[0]);
      PathsAreShort(l, root, p);
    }
    AllGoodLoads(l, root);
  }

  /** An index that lists the digest b first as an index and then as an image. */
  ghost predicate ListsTwice(l: Layout, root: Descriptor, b: Digest, indexType: string, imageType: string) {
    && l.BlobOk(root.digest) && l.BlobOk(b) && b != root.digest
    && root.mediaType in INDEX_MEDIA_TYPES && indexType in INDEX_MEDIA_TYPES && imageType in MANIFEST_MEDIA_TYPES
    && l.decode(l.files[root.digest]).Some? && l.decode(l.files[b]).Some?
    && l.decode(l.files[root.digest]).value.manifests
       == [Mapping(Descriptor(b, indexType)), Mapping(Descriptor(b, imageType))]
    && l.decode(l.files[b]).value.manifests == [] && l.decode(l.files[b]).value.config.Mapping?
  }

  lemma EmptyIndexAddsNothing(l: Layout, d: Descriptor, w: Walk)
    requires l.BlobOk(d.digest) && d.mediaType in INDEX_MEDIA_TYPES && d.digest !in w.seen
    requires l.decode(l.files[d.digest]).Some? && l.decode(l.files[d.digest]).value.manifests == []
    ensures Visit(l, d, w)
         == Success((Node(d.mediaType, d.digest, l.files[d.digest]), w.(seen := w.seen + {d.digest})))
  {
  }

  lemma SeenAddsNothing(l: Layout, d: Descriptor, w: Walk)
    requires l.BlobOk(d.digest) && d.digest in w.seen
    ensures Visit(l, d, w) == Success((Node(d.mediaType, d.digest, l.files[d.digest]), w))
  {
  }

  lemma TwiceListedWalk(l: Layout, root: Descriptor, b: Digest, indexType: string, imageType: string)
    requires ListsTwice(l, root, b, indexType, imageType)
    ensures VisitChildren(l, l.decode(l.files[root.digest]).value.manifests, Walk([], [], {root.digest}))
         == Success(Walk([], [Node(indexType, b, l.files[b])], {root.digest, b}))
  {
    var items := l.decode(l.files[root.digest]).value.manifests;
    var node := Node(indexType, b, l.files[b]);
    var start, first := Walk([], [], {root.digest}), Walk([], [node], {root.digest} + {b});
    EmptyIndexAddsNothing(l, Descriptor(b, indexType), start);
    assert Add(Walk([], [], {root.digest} + {b}), node) == first;
    SeenAddsNothing(l, Descriptor(b, imageType), first);
    assert node in first.manifests;
    assert Add(first, Node(imageType, b, l.files[b])) == first;
    assert items[0] == Mapping(Descriptor(b, indexType));
    assert VisitChildren(l, items, start) == VisitChildren(l, items[1..], first);
    assert items[1..][0] == Mapping(Descriptor(b, imageType)) && items[1..][1..] == [];
    assert VisitChildren(l, items[1..], first) == VisitChildren(l, [], first);
    assert {root.digest} + {b} == {root.digest, b};
  }

  /**
   A digest that is described under two media types is read under the first one
   only: the configuration that its image description names is not even collected.
   */
  lemma SecondTypeIsSkipped(l: Layout, root: Descriptor, b: Digest, indexType: string, imageType: string)
    requires ListsTwice(l, root, b, indexType, imageType)
    ensures LoadGraph(l, [root], root.digest).Success?
    ensures LoadGraph(l, [root], root.digest).value.blobs == []
    ensures Reaches(l, root, Descriptor(b, imageType))
    ensures l.decode(l.files[b]).value.config.descriptor.digest in Blobs(l, Descriptor(b, imageType))
  {
    var image := Descriptor(b, imageType);
    TwiceListedWalk(l, root, b, indexType, imageType);
    var items := l.decode(l.files[root.digest]).value.manifests;
    assert {} + {root.digest} == {root.digest};
    assert items[1] in items && items[1].descriptor == image;
    assert image in Kids(l, root);
    ReachesSelf(l, root);
    ReachesKid(l, root, root, image);
    assert BlobItems(l, image)[0] in BlobItems(l, image);
  }

  /** An index that lists itself: a cycle. */
  ghost predicate ListsItself(l: Layout, root: Descriptor) {
    && l.BlobOk(root.digest) && IsIndex(root) && l.decode(l.files[root.digest]).Some?
    && l.decode(l.files[root.digest]).value.manifests == [Mapping(root)]
  }

  /** The walk over an index that lists itself ends, and puts the root among the manifests that are pushed before it. */
  lemma SelfListingIsMisordered(l: Layout, root: Descriptor)
    requires ListsItself(l, root)
    ensures LoadGraph(l, [root], root.digest).Success?
    ensures var g := LoadGraph(l, [root], root.digest).value;
            g.manifests == [g.root] && !ChildrenFirst(l, g.manifests)
    ensures !Acyclic(l, root)
  {
    var items, start := l.decode(l.files[root.digest]).value.manifests, Walk([], [], {root.digest});
    var node := Node(root.mediaType, root.digest, l.files[root.digest]);
    SeenAddsNothing(l, root, start);
    assert {} + {root.digest} == {root.digest};
    assert Add(start, node) == Walk([], [node], {root.digest});
    assert VisitChildren(l, items, start) == VisitChildren(l, items[1..], Add(start, node));
    assert items[0] in items && root in Kids(l, root) && DescriptorOf(node) == root;
    ReachesSelf(l, root);
    BackEdge(l, root, root, root);
    assert [node][..0] == [];
    assert !exists n :: n in [node][..0] && IsNodeOf(l, n, root);
  }

  const INDEX_TYPE := "application/vnd.oci.image.index.v1+json"

  function Digest64(c: char): Digest {
    "sha256:" + seq(64, _ => c)
  }

  /** One index that lists itself; every content has its digest. */
  function SelfListing(): Layout {
    var root := Descriptor(Digest64('a'), INDEX_TYPE);
    Layout(map[root.digest := []], (_: Bytes) => Digest64('a'),
           (_: Bytes) => Some(Document([Mapping(root)], NotMapping, [])))
  }

  lemma SelfListingExists()
    ensures ListsItself(SelfListing(), Descriptor(Digest64('a'), INDEX_TYPE))
  {
    assert Digest64('a')[..7] == "sha256:";
  }

  const IMAGE_TYPE := "application/vnd.oci.image.manifest.v1+json"

  /** Two files: an index that lists the other file as an index and as an image. */
  function TwiceListing(): Layout {
    var (a, b) := (Digest64('a'), Digest64('b'));
    Layout(
      map[a := [0], b := [1]],
      (data: Bytes) => if data == [0] then Digest64('a') else Digest64('b'),
      (data: Bytes) =>
        if data == [0] then
          Some(Document(
            [Mapping(Descriptor(Digest64('b'), INDEX_TYPE)), Mapping(Descriptor(Digest64('b'), IMAGE_TYPE))],
            NotMapping, []))
        else
          Some(Document([], Mapping(Descriptor(Digest64('a'), "config")), [])))
  }

  lemma TwiceListingExists()
    ensures ListsTwice(TwiceListing(), Descriptor(Digest64('a'), INDEX_TYPE), Digest64('b'), INDEX_TYPE, IMAGE_TYPE)
  {
    var a, b := Digest64('a'), Digest64('b');
    assert a[7] == 'a' && b[7] == 'b';
    assert a[..7] == "sha256:" && b[..7] == "sha256:";
    var zero, one: Bytes := [0], [1];
    assert zero[0] != one[0];
  }
}
