/**
 What a loaded graph is for every layout, one that describes a digest under two
 media types included: each digest is read once, under one of its types.
 */
module OciReading {
  import opened Wrappers
  import opened Collections
  import opened OciLayout
  import opened OciGraph

  ghost predicate OnePerDigest(v: iset<Descriptor>) {
    forall a, b | a in v && b in v && a.digest == b.digest :: a == b
  }

  ghost predicate HasDigest(v: iset<Descriptor>, digest: Digest) {
    exists a :: a in v && a.digest == digest
  }

  /** Some descriptor of the set lists this digest, under whatever type. */
  ghost predicate ListsDigest(l: Layout, v: iset<Descriptor>, digest: Digest) {
    exists a, c :: a in v && c in Kids(l, a) && c.digest == digest
  }

  /**
   Reachable descriptors, the root among them and one for each digest, that all pass
   the checks; whatever they list is there, under the listed type or another.
   */
  ghost predicate IsReading(l: Layout, root: Descriptor, v: iset<Descriptor>) {
    && root in v && OnePerDigest(v)
    && (forall a | a in v :: Good(l, a) && Reaches(l, root, a))
    && forall a, c | a in v && c in Kids(l, a) :: HasDigest(v, c.digest)
  }

  // ---- During the walk ----

  /** The descriptor passed its checks, and what it refers to has been recorded. */
  ghost predicate IsRead(l: Layout, a: Descriptor, w: Walk) {
    && Good(l, a)
    && (forall c | c in Kids(l, a) :: c.digest in w.seen && c.digest in Digests(w.manifests))
    && (forall b | b in Blobs(l, a) :: b in w.blobs)
  }

  ghost predicate AllRead(l: Layout, w: Walk, v: iset<Descriptor>, open: iset<Descriptor>) {
    forall a | a in v && a !in open :: IsRead(l, a, w)
  }

  /** The set holds one descriptor of each digest seen, and they account for what was collected. */
  ghost predicate Accounts(l: Layout, root: Descriptor, w: Walk, v: iset<Descriptor>) {
    && OnePerDigest(v)
    && (forall a | a in v :: a.digest in w.seen && Reaches(l, root, a))
    && (forall x | x in w.seen :: HasDigest(v, x))
    && Distinct(w.blobs) && (forall b | b in w.blobs :: Named(l, v, b))
    && (forall n | n in w.manifests :: ListsDigest(l, v, n.digest))
  }

  lemma IsReadStays(l: Layout, a: Descriptor, w: Walk, w': Walk)
    requires IsRead(l, a, w) && Grows(w, w')
    ensures IsRead(l, a, w')
  {
  }

  lemma AllReadStays(l: Layout, w: Walk, w': Walk, v: iset<Descriptor>, open: iset<Descriptor>)
    requires AllRead(l, w, v, open) && Grows(w, w')
    ensures AllRead(l, w', v, open)
  {
    hide IsRead, Grows;
    forall a | a in v && a !in open
      ensures IsRead(l, a, w')
    {
      IsReadStays(l, a, w, w');
    }
  }

  lemma NamedStays(l: Layout, v: iset<Descriptor>, v': iset<Descriptor>, b: Digest)
    requires Named(l, v, b) && v <= v'
    ensures Named(l, v', b)
  {
  }

  lemma ListsDigestStays(l: Layout, v: iset<Descriptor>, v': iset<Descriptor>, x: Digest)
    requires ListsDigest(l, v, x) && v <= v'
    ensures ListsDigest(l, v', x)
  {
    var a, c :| a in v && c in Kids(l, a) && c.digest == x;
    assert a in v';
  }

  lemma EnterAccounts(l: Layout, root: Descriptor, d: Descriptor, w: Walk, v: iset<Descriptor>)
    requires Accounts(l, root, w, v) && Reaches(l, root, d) && d.digest !in w.seen
    ensures Accounts(l, root, w.(seen := w.seen + {d.digest}), v + iset{d})
  {
    hide Named, ListsDigest, Reaches;
    var w', v' := w.(seen := w.seen + {d.digest}), v + iset{d};
    assert d in v';
    forall x | x in w'.seen
      ensures HasDigest(v', x)
    {
      if x in w.seen {
        var a :| a in v && a.digest == x;
        assert a in v';
      }
    }
    forall b | b in w.blobs
      ensures Named(l, v', b)
    {
      NamedStays(l, v, v', b);
    }
    forall n | n in w.manifests
      ensures ListsDigest(l, v', n.digest)
    {
      ListsDigestStays(l, v, v', n.digest);
    }
  }

  lemma EnterReads(l: Layout, d: Descriptor, w: Walk, v: iset<Descriptor>, open: iset<Descriptor>)
    requires AllRead(l, w, v, open)
    ensures AllRead(l, w.(seen := w.seen + {d.digest}), v + iset{d}, open + iset{d})
  {
    hide IsRead;
    AllReadStays(l, w, w.(seen := w.seen + {d.digest}), v, open);
  }

  lemma ImageReads(l: Layout, root: Descriptor, d: Descriptor, w: Walk, v: iset<Descriptor>)
    requires d.digest !in w.seen && d.mediaType !in INDEX_MEDIA_TYPES && Visit(l, d, w).Success?
    requires Accounts(l, root, w.(seen := w.seen + {d.digest}), v) && d in v
    ensures var w' := Visit(l, d, w).value.1;
            && Accounts(l, root, w', v) && Grows(w.(seen := w.seen + {d.digest}), w') && IsRead(l, d, w')
  {
    hide Reaches, ListsDigest, HasDigest;
    AddBlobsAdds(l, BlobItems(l, d), w.blobs);
    var w' := Visit(l, d, w).value.1;
    forall b | b in w'.blobs
      ensures Named(l, v, b)
    {
      assert b in w.blobs || b in Blobs(l, d);
    }
  }

  lemma {:induction false} VisitReads(
    l: Layout, root: Descriptor, d: Descriptor, w: Walk, v: iset<Descriptor>, open: iset<Descriptor>)
    returns (v': iset<Descriptor>)
    requires Accounts(l, root, w, v) && AllRead(l, w, v, open)
    requires Reaches(l, root, d) && Visit(l, d, w).Success?
    ensures var (n, w') := Visit(l, d, w).value;
            && Accounts(l, root, w', v') && AllRead(l, w', v', open) && v <= v' && Grows(w, w')
            && n.digest == d.digest && d.digest in w'.seen && (d.digest !in w.seen ==> d in v')
    decreases |l.files.Keys - w.seen|, 0
  {
    hide Accounts, IsRead, Reaches, Named;
    if d.digest in w.seen {
      v' := v;
    } else {
      var entered := w.(seen := w.seen + {d.digest});
      Shrinks(l.files.Keys, w.seen, d.digest);
      EnterAccounts(l, root, d, w, v);
      EnterReads(l, d, w, v, open);
      var w' := Visit(l, d, w).value.1;
      if d.mediaType in INDEX_MEDIA_TYPES {
        VisitIndex(l, d, w);
        var items := l.decode(l.files[d.digest]).value.manifests;
        v' := ChildrenRead(l, root, d, items, entered, v + iset{d}, open + iset{d});
        IndexIsRead(l, d, w');
      } else {
        v' := v + iset{d};
        ImageReads(l, root, d, w, v');
        AllReadStays(l, entered, w', v', open + iset{d});
      }
    }
  }

  lemma IndexIsRead(l: Layout, d: Descriptor, w: Walk)
    requires l.BlobOk(d.digest) && l.decode(l.files[d.digest]).Some? && d.mediaType in INDEX_MEDIA_TYPES
    requires forall i | i in l.decode(l.files[d.digest]).value.manifests ::
               i.Mapping? && i.descriptor.digest in w.seen && i.descriptor.digest in Digests(w.manifests)
    ensures IsRead(l, d, w)
  {
    assert d.mediaType !in MANIFEST_MEDIA_TYPES;
  }

  lemma AddReads(l: Layout, root: Descriptor, d: Descriptor, c: Descriptor, n: Node, w: Walk, v: iset<Descriptor>,
                 open: iset<Descriptor>)
    requires Accounts(l, root, w, v) && AllRead(l, w, v, open)
    requires d in v && c in Kids(l, d) && n.digest == c.digest
    ensures var w' := Add(w, n);
            && Accounts(l, root, w', v) && AllRead(l, w', v, open) && Grows(w, w') && c.digest in Digests(w'.manifests)
  {
    hide IsRead, Reaches, Named, HasDigest, AllRead;
    assert ListsDigest(l, v, n.digest);
    var w' := Add(w, n);
    if n.digest !in Digests(w.manifests) {
      assert n in w'.manifests;
    }
    AllReadStays(l, w, w', v, open);
  }

  lemma {:induction false} ChildrenRead(
    l: Layout, root: Descriptor, d: Descriptor, items: seq<Item>, w: Walk, v: iset<Descriptor>, open: iset<Descriptor>)
    returns (v': iset<Descriptor>)
    requires Accounts(l, root, w, v) && AllRead(l, w, v, open)
    requires d in v && Reaches(l, root, d) && VisitChildren(l, items, w).Success?
    requires forall i | i in items && i.Mapping? :: i.descriptor in Kids(l, d)
    ensures var w' := VisitChildren(l, items, w).value;
            && Accounts(l, root, w', v') && AllRead(l, w', v', open) && v <= v' && Grows(w, w')
            && forall i | i in items ::
                 i.Mapping? && i.descriptor.digest in w'.seen && i.descriptor.digest in Digests(w'.manifests)
    decreases |l.files.Keys - w.seen|, |items|
  {
    hide Accounts, AllRead, Reaches, Kids;
    if items == [] {
      v' := v;
    } else {
      var c := items[0].descriptor;
      VisitFirst(l, items, w);
      ReachesKid(l, root, d, c);
      var v1 := VisitReads(l, root, c, w, v, open);
      var (node, below) := Visit(l, c, w).value;
      AddReads(l, root, d, c, node, below, v1, open);
      v' := ChildrenRead(l, root, d, items[1..], Add(below, node), v1, open);
      FirstAndOthers(l, items, Add(below, node), VisitChildren(l, items, w).value);
    }
  }

  lemma FirstAndOthers(l: Layout, items: seq<Item>, w: Walk, w': Walk)
    requires items != [] && Grows(w, w') && items[0].Mapping?
    requires items[0].descriptor.digest in w.seen && items[0].descriptor.digest in Digests(w.manifests)
    requires forall i | i in items[1..] ::
               i.Mapping? && i.descriptor.digest in w'.seen && i.descriptor.digest in Digests(w'.manifests)
    ensures forall i | i in items ::
              i.Mapping? && i.descriptor.digest in w'.seen && i.descriptor.digest in Digests(w'.manifests)
  {
    assert items == [items[0]] + items[1..];
  }

  // ---- After the walk ----

  /**
   Whatever the layout, a graph that loads has a reading: the blobs are exactly the
   configurations and layers of its images, and the digests of the manifests exactly
   those that its indexes list.
   */
  lemma LoadedIsReading(l: Layout, roots: seq<Descriptor>, expected: Digest) returns (v: iset<Descriptor>)
    requires LoadGraph(l, roots, expected).Success?
    ensures IsReading(l, roots[0], v)
    ensures var g := LoadGraph(l, roots, expected).value;
            && (forall b :: b in g.blobs <==> Named(l, v, b))
            && (forall x :: x in Digests(g.manifests) <==> ListsDigest(l, v, x))
  {
    hide Good, Kids, Blobs, Reaches;
    var root, start := roots[0], Walk([], [], {});
    ReachesSelf(l, root);
    v := VisitReads(l, root, root, start, iset{}, iset{});
    ReadingOf(l, root, Visit(l, root, start).value.1, v);
  }

  lemma ReadingOf(l: Layout, root: Descriptor, w: Walk, v: iset<Descriptor>)
    requires Accounts(l, root, w, v) && AllRead(l, w, v, iset{}) && root in v
    ensures IsReading(l, root, v)
    ensures (forall b :: b in w.blobs <==> Named(l, v, b))
    ensures (forall x :: x in Digests(w.manifests) <==> ListsDigest(l, v, x))
  {
    hide Good, Kids, Blobs, Reaches;
    forall b | Named(l, v, b)
      ensures b in w.blobs
    {
      var a :| a in v && b in Blobs(l, a);
      assert IsRead(l, a, w);
    }
    forall x | ListsDigest(l, v, x)
      ensures x in Digests(w.manifests)
    {
      var a, c :| a in v && c in Kids(l, a) && c.digest == x;
      assert IsRead(l, a, w);
    }
  }

  /** With one media type per digest, a reading is everything reachable. */
  lemma ReadingIsReachable(l: Layout, root: Descriptor, v: iset<Descriptor>)
    requires IsReading(l, root, v) && OneType(l, root)
    ensures v == Reachable(l, root)
  {
    forall d | Reaches(l, root, d)
      ensures d in v
    {
      var p :| Path(l, p) && p[0] == root && p[|p| - 1] == d;
      ReadAlong(l, root, v, p);
    }
  }

  lemma {:induction false} ReadAlong(l: Layout, root: Descriptor, v: iset<Descriptor>, p: seq<Descriptor>)
    requires IsReading(l, root, v) && OneType(l, root) && Path(l, p) && p[0] == root
    ensures p[|p| - 1] in v
  {
    if |p| > 1 {
      var q, d := p[..|p| - 1], p[|p| - 1];
      ReadAlong(l, root, v, q);
      assert d in Kids(l, q[|q| - 1]) && HasDigest(v, d.digest);
      var a :| a in v && a.digest == d.digest;
      ReachesKid(l, root, q[|q| - 1], d);
    }
  }
}
