/**
 The exported OCI image layout and the walk that turns its content-addressed
 graph into an upload order: every blob, then every child manifest after the
 manifests it refers to, then the root.
 */
module OciLayout {
  import opened Wrappers
  import opened Collections

  type Digest = string
  type Bytes = seq<bv8>

  const INDEX_MEDIA_TYPES := {
    "application/vnd.oci.image.index.v1+json",
    "application/vnd.docker.distribution.manifest.list.v2+json"
  }
  const MANIFEST_MEDIA_TYPES := {
    "application/vnd.oci.image.manifest.v1+json",
    "application/vnd.docker.distribution.manifest.v2+json"
  }

  datatype Descriptor = Descriptor(digest: Digest, mediaType: string)

  /** An element of a JSON array that should hold descriptors. */
  datatype Item = Mapping(descriptor: Descriptor) | NotMapping

  /** The three members of a decoded manifest that the walk reads. */
  datatype Document = Document(manifests: seq<Item>, config: Item, layers: seq<Item>)

  datatype Node = Node(mediaType: string, digest: Digest, data: Bytes)

  datatype LoadError =
    | NotOneRoot
    | DigestMismatch
    | BadBlob(digest: Digest)
    | Undecodable(digest: Digest)
    | InvalidDescriptor
    | UnsupportedMediaType(mediaType: string)

  /** sha256: and 64 lower-case hexadecimal digits. */
  predicate IsDigest(text: string) {
    && |text| == 71
    && text[..7] == "sha256:"
    && forall i | 7 <= i < 71 :: '0' <= text[i] <= '9' || 'a' <= text[i] <= 'f'
  }

  /** Files by the digest that names them. Hashing and JSON decoding are parameters. */
  datatype Layout = Layout(
    files: map<Digest, Bytes>,
    sha256: Bytes -> Digest,
    decode: Bytes -> Option<Document>)
  {
    /** The checks made before a blob is read or uploaded. */
    predicate BlobOk(digest: Digest) {
      IsDigest(digest) && digest in files && sha256(files[digest]) == digest
    }
  }

  /** The accumulators of the walk. */
  datatype Walk = Walk(blobs: seq<Digest>, manifests: seq<Node>, seen: set<Digest>)

  datatype Graph = Graph(blobs: seq<Digest>, manifests: seq<Node>, root: Node)

  function Digests(nodes: seq<Node>): set<Digest> {
    set n | n in nodes :: n.digest
  }

  function Add(w: Walk, n: Node): Walk {
    if n.digest in Digests(w.manifests) then w else w.(manifests := w.manifests + [n])
  }

  /** What the walk computes: one descriptor, with everything below it that was not seen before. */
  function Visit(l: Layout, d: Descriptor, w: Walk): (r: Result<(Node, Walk), LoadError>)
    ensures r.Success? ==> w.seen <= r.value.1.seen
    decreases |l.files.Keys - w.seen|, 0
  {
    if !l.BlobOk(d.digest) then
      Failure(BadBlob(d.digest))
    else
      var node := Node(d.mediaType, d.digest, l.files[d.digest]);
      if d.digest in w.seen then
        Success((node, w))
      else
        var entered := w.(seen := w.seen + {d.digest});
        Shrinks(l.files.Keys, w.seen, d.digest);
        match l.decode(node.data)
        case None => Failure(Undecodable(d.digest))
        case Some(document) =>
          if d.mediaType in INDEX_MEDIA_TYPES then
            var below :- VisitChildren(l, document.manifests, entered);
            Success((node, below))
          else if d.mediaType in MANIFEST_MEDIA_TYPES then
            var blobs :- AddBlobs(l, [document.config] + document.layers, entered.blobs);
            Success((node, entered.(blobs := blobs)))
          else
            Failure(UnsupportedMediaType(d.mediaType))
  }

  function VisitChildren(l: Layout, items: seq<Item>, w: Walk): (r: Result<Walk, LoadError>)
    ensures r.Success? ==> w.seen <= r.value.seen
    decreases |l.files.Keys - w.seen|, |items|
  {
    if items == [] then
      Success(w)
    else if items[0].NotMapping? then
      Failure(InvalidDescriptor)
    else
      var (node, below) :- Visit(l, items[0].descriptor, w);
      Narrows(l.files.Keys, w.seen, below.seen);
      VisitChildren(l, items[1..], Add(below, node))
  }

  function AddBlobs(l: Layout, items: seq<Item>, blobs: seq<Digest>): Result<seq<Digest>, LoadError> {
    if items == [] then
      Success(blobs)
    else if items[0].NotMapping? then
      Failure(InvalidDescriptor)
    else
      var blob := items[0].descriptor.digest;
      if !l.BlobOk(blob) then
        Failure(BadBlob(blob))
      else
        AddBlobs(l, items[1..], if blob in blobs then blobs else blobs + [blob])
  }

  function LoadGraph(l: Layout, roots: seq<Descriptor>, expected: Digest): Result<Graph, LoadError> {
    if |roots| != 1 then
      Failure(NotOneRoot)
    else if roots[0].digest != expected then
      Failure(DigestMismatch)
    else
      var (root, w) :- Visit(l, roots[0], Walk([], [], {}));
      Success(Graph(w.blobs, w.manifests, root))
  }

  lemma Shrinks(keys: set<Digest>, seen: set<Digest>, d: Digest)
    requires d in keys && d !in seen
    ensures |keys - (seen + {d})| < |keys - seen|
  {
    assert keys - seen == (keys - (seen + {d})) + {d};
  }

  lemma Narrows<T>(keys: set<T>, seen: set<T>, more: set<T>)
    requires seen <= more
    ensures |keys - more| <= |keys - seen|
  {
    SubsetSize(keys - more, keys - seen);
  }

  /** The walk itself: a recursive visit that appends to two lists and grows a set. */
  class GraphLoader {
    const layout: Layout
    var blobs: seq<Digest>
    var manifests: seq<Node>
    var seen: set<Digest>

    constructor (layout: Layout)
      ensures this.layout == layout && Value() == Walk([], [], {})
    {
      this.layout := layout;
      blobs, manifests, seen := [], [], {};
    }

    function Value(): Walk
      reads this
    {
      Walk(blobs, manifests, seen)
    }

    method VisitDescriptor(d: Descriptor) returns (r: Result<Node, LoadError>)
      modifies this
      ensures var spec := Visit(layout, d, old(Value()));
              if spec.Success? then r == Success(spec.value.0) && Value() == spec.value.1
              else r == Failure(spec.error)
      decreases |layout.files.Keys - seen|, 0
    {
      if !layout.BlobOk(d.digest) {
        return Failure(BadBlob(d.digest));
      }
      var node := Node(d.mediaType, d.digest, layout.files[d.digest]);
      if d.digest in seen {
        return Success(node);
      }
      Shrinks(layout.files.Keys, seen, d.digest);
      seen := seen + {d.digest};
      var decoded := layout.decode(node.data);
      if decoded.None? {
        return Failure(Undecodable(d.digest));
      }
      var document := decoded.value;
      if d.mediaType in INDEX_MEDIA_TYPES {
        var _ :- VisitListed(document.manifests);
      } else if d.mediaType in MANIFEST_MEDIA_TYPES {
        var _ :- CollectBlobs([document.config] + document.layers);
      } else {
        return Failure(UnsupportedMediaType(d.mediaType));
      }
      return Success(node);
    }

    method VisitListed(items: seq<Item>) returns (r: Result<(), LoadError>)
      modifies this
      ensures var spec := VisitChildren(layout, items, old(Value()));
              if spec.Success? then r == Success(()) && Value() == spec.value else r == Failure(spec.error)
      decreases |layout.files.Keys - seen|, 1
    {
      ghost var spec := VisitChildren(layout, items, Value());
      for i := 0 to |items|
        invariant old(seen) <= seen
        invariant spec == VisitChildren(layout, items[i..], Value())
      {
        assert items[i..][1..] == items[i + 1..];
        if items[i].NotMapping? {
          return Failure(InvalidDescriptor);
        }
        Narrows(layout.files.Keys, old(seen), seen);
        var child :- VisitDescriptor(items[i].descriptor);
        if child.digest !in Digests(manifests) {
          manifests := manifests + [child];
        }
      }
      return Success(());
    }

    method CollectBlobs(items: seq<Item>) returns (r: Result<(), LoadError>)
      modifies this`blobs
      ensures var spec := AddBlobs(layout, items, old(blobs));
              if spec.Success? then r == Success(()) && blobs == spec.value else r == Failure(spec.error)
    {
      for i := 0 to |items|
        invariant AddBlobs(layout, items, old(blobs)) == AddBlobs(layout, items[i..], blobs)
      {
        assert items[i..][1..] == items[i + 1..];
        if items[i].NotMapping? {
          return Failure(InvalidDescriptor);
        }
        var blob := items[i].descriptor.digest;
        if !layout.BlobOk(blob) {
          return Failure(BadBlob(blob));
        }
        if blob !in blobs {
          blobs := blobs + [blob];
        }
      }
      return Success(());
    }
  }

  method Load(layout: Layout, roots: seq<Descriptor>, expected: Digest) returns (r: Result<Graph, LoadError>)
    ensures r == LoadGraph(layout, roots, expected)
  {
    if |roots| != 1 {
      return Failure(NotOneRoot);
    }
    if roots[0].digest != expected {
      return Failure(DigestMismatch);
    }
    var loader := new GraphLoader(layout);
    var root :- loader.VisitDescriptor(roots[0]);
    return Success(Graph(loader.blobs, loader.manifests, root));
  }
}
