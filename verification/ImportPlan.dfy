/** Planning an import (dockerarchive/plan.go): every entry of index.json is
    resolved against the archive, children it does not hold are pruned from
    their index, and the manifests and blobs are collected in publish order. */
module ImportPlan {
  import opened Wrappers
  import opened OciManifest

  /** A manifest body that parses; whether pruning can rewrite its JSON. */
  datatype Doc = Doc(manifest: Manifest, rewritable: bool)

  /** A blob of the archive: doc is None when it cannot be read as a manifest. */
  datatype Blob = Blob(size: nat, doc: Option<Doc>)

  datatype Rendered = Rendered(digest: string, size: nat)

  /** The digest and size of an index body rewritten to hold other manifests. */
  type Render = (string, Manifest) -> Rendered

  datatype Archive = Archive(blobs: map<string, Blob>, index: seq<Descriptor>)

  /** A manifest or index as resolved; its digest is new when it was pruned. */
  datatype Node = Node(desc: Descriptor, manifest: Manifest, synthesized: bool, children: seq<Node>)

  datatype Resolution = Absent | Failed | Present(node: Node)

  /** ReadBlob checks every body against its digest, so no manifest is below
      itself: the children of a manifest rank lower. */
  ghost predicate Ranked(a: Archive, rank: map<string, nat>) {
    forall d, k ::
      d in a.blobs && a.blobs[d].doc.Some? && 0 <= k < |Children(a.blobs[d].doc.value.manifest)| ==>
        RanksBelow(rank, Children(a.blobs[d].doc.value.manifest)[k].digest, d)
  }

  ghost predicate RanksBelow(rank: map<string, nat>, c: string, d: string) {
    RankOf(rank, c) < RankOf(rank, d)
  }

  ghost function RankOf(rank: map<string, nat>, d: string): nat {
    if d in rank then rank[d] else 0
  }

  predicate AllPresent(a: Archive, blobs: seq<Descriptor>) {
    forall k :: 0 <= k < |blobs| ==> blobs[k].digest in a.blobs
  }

  /** A child that is in the archive, by its position in the index. */
  datatype Kept = Kept(at: nat, node: Node)

  function Nodes(kept: seq<Kept>): seq<Node> {
    seq(|kept|, j requires 0 <= j < |kept| => kept[j].node)
  }

  /** The descriptor a pruned index has for a kept child. */
  function KeptDescriptor(from: seq<Descriptor>, k: Kept): Descriptor
    requires k.at < |from|
  {
    if k.node.synthesized then from[k.at].(digest := k.node.desc.digest, size := k.node.desc.size) else from[k.at]
  }

  predicate InBounds(from: seq<Descriptor>, kept: seq<Kept>) {
    forall j :: 0 <= j < |kept| ==> kept[j].at < |from|
  }

  /** pruneIndex: only the kept children, each by its resolved digest. */
  function Pruned(m: Manifest, kept: seq<Kept>): Manifest
    requires InBounds(Children(m), kept)
  {
    m.(manifests := Some(seq(|kept|, j requires 0 <= j < |kept| => KeptDescriptor(Children(m), kept[j]))))
  }

  function Resolve(a: Archive, ghost rank: map<string, nat>, render: Render, d: Descriptor): (r: Resolution)
    requires Ranked(a, rank)
    ensures r.Absent? <==> d.digest !in a.blobs
    decreases RankOf(rank, d.digest), 1, 0
  {
    if d.digest !in a.blobs then Absent
    else
      var b := a.blobs[d.digest];
      if b.doc.None? then Failed
      else
        var m := b.doc.value.manifest;
        var desc := if d.mediaType == "" then d.(mediaType := EffectiveMediaType(m)) else d;
        if !IsIndex(m) then
          if AllPresent(a, BlobDescriptors(m)) then Present(Node(desc, m, false, [])) else Failed
        else
          var kids := ResolveChildren(a, rank, render, d.digest, m, |Children(m)|);
          if kids.None? || kids.value == [] then Failed
          else if |kids.value| == |Children(m)| then Present(Node(desc, m, false, Nodes(kids.value)))
          else if !b.doc.value.rewritable then Failed
          else
            var pruned := Pruned(m, kids.value);
            var body := render(d.digest, pruned);
            Present(Node(desc.(digest := body.digest, size := body.size), pruned, true, Nodes(kids.value)))
  }

  /** The kept ones among the first n children; None when one fails. */
  function ResolveChildren(a: Archive, ghost rank: map<string, nat>, render: Render, d: string, m: Manifest, n: nat)
    : (r: Option<seq<Kept>>)
    requires Ranked(a, rank) && n <= |Children(m)|
    requires d in a.blobs && a.blobs[d].doc.Some? && a.blobs[d].doc.value.manifest == m
    ensures r.Some? ==> |r.value| <= n && InBounds(Children(m), r.value)
    ensures r.Some? && |r.value| == n ==> forall j :: 0 <= j < n ==> r.value[j].at == j
    decreases RankOf(rank, d), 0, n
  {
    if n == 0 then Some([])
    else
      var head := ResolveChildren(a, rank, render, d, m, n - 1);
      assert RanksBelow(rank, Children(m)[n - 1].digest, d);
      if head.None? then None
      else
        match Resolve(a, rank, render, Children(m)[n - 1])
        case Absent => head
        case Failed => None
        case Present(node) => Some(head.value + [Kept(n - 1, node)])
  }

  // ---- What a resolved node is ----------------------------------------------------

  ghost predicate Resolves(a: Archive, rank: map<string, nat>, render: Render, d: Descriptor, n: Node)
    requires Ranked(a, rank)
  {
    Resolve(a, rank, render, d) == Present(n)
  }

  lemma {:induction false} ChildrenResolve(a: Archive, rank: map<string, nat>, render: Render, d: string,
      m: Manifest, n: nat)
    requires Ranked(a, rank) && n <= |Children(m)|
    requires d in a.blobs && a.blobs[d].doc.Some? && a.blobs[d].doc.value.manifest == m
    ensures
      var r := ResolveChildren(a, rank, render, d, m, n);
      r.Some? ==> forall j :: 0 <= j < |r.value| ==> Resolves(a, rank, render, Children(m)[r.value[j].at], r.value[j].node)
    decreases n
  {
    if n > 0 {
      ChildrenResolve(a, rank, render, d, m, n - 1);
      hide Resolve, Children, Ranked;
    }
  }

  /** What a descriptor without a media type gets: the manifest's own, or else the
      OCI type of its kind. */
  ghost predicate TypeOf(d: Descriptor, m: Manifest, mediaType: string) {
    if d.mediaType != "" then mediaType == d.mediaType
    else if m.mediaType != "" then mediaType == m.mediaType
    else if m.manifests.Some? then mediaType == "application/vnd.oci.image.index.v1+json"
    else mediaType == "application/vnd.oci.image.manifest.v1+json"
  }

  /** A node is the archive's manifest under its own descriptor, or an index pruned of
      absent children under the digest and size of its new body. */
  ghost predicate Local(a: Archive, render: Render, d: Descriptor, n: Node) {
    && d.digest in a.blobs && a.blobs[d.digest].doc.Some?
    && var m := a.blobs[d.digest].doc.value.manifest;
    && (if n.synthesized then
          && n.desc.digest == render(d.digest, n.manifest).digest && n.desc.size == render(d.digest, n.manifest).size
          && n.manifest.mediaType == m.mediaType && n.manifest.config == m.config && n.manifest.layers == m.layers
          && n.manifest.manifests.Some?
        else n.desc.digest == d.digest && n.desc.size == d.size && n.manifest == m)
    && TypeOf(d, m, n.desc.mediaType) && n.desc.attestation == d.attestation && n.desc.platform == d.platform
    && (if SaysImage(n.manifest) then !n.synthesized && n.children == [] && BlobsAmong(n.manifest, a.blobs.Keys)
        else |n.children| == |Children(n.manifest)| > 0)
  }

  lemma {:induction false} ResolvesLocal(a: Archive, rank: map<string, nat>, render: Render, d: Descriptor, n: Node)
    requires Ranked(a, rank) && Resolves(a, rank, render, d, n)
    ensures Local(a, render, d, n) && (IsIndex(n.manifest) <==> !SaysImage(n.manifest))
  {
    var m := a.blobs[d.digest].doc.value.manifest;
    IndexByFields(m);
    IndexByFields(n.manifest);
    BlobsByFields(m, a.blobs.Keys);
    TypeByFields(d, m);
    hide BlobsAmong, BlobDescriptors, TypeOf, EffectiveMediaType;
  }

  lemma {:induction false} TypeByFields(d: Descriptor, m: Manifest)
    ensures TypeOf(d, m, if d.mediaType == "" then EffectiveMediaType(m) else d.mediaType)
  {
  }

  /** The descriptor the body has for its j-th child, and the child itself. */
  lemma {:induction false} ResolvesChild(a: Archive, rank: map<string, nat>, render: Render, d: Descriptor, n: Node,
      j: nat) returns (c: Descriptor)
    requires Ranked(a, rank) && Resolves(a, rank, render, d, n) && j < |n.children|
    ensures Resolves(a, rank, render, c, n.children[j]) && j < |Children(n.manifest)|
    ensures HeldChild(a, d.digest, c.digest)
    ensures Children(n.manifest)[j] ==
      if n.synthesized && n.children[j].synthesized
      then c.(digest := n.children[j].desc.digest, size := n.children[j].desc.size) else c
  {
    var m := a.blobs[d.digest].doc.value.manifest;
    var kids := ResolveChildren(a, rank, render, d.digest, m, |Children(m)|).value;
    ChildrenResolve(a, rank, render, d.digest, m, |Children(m)|);
    c := Children(m)[kids[j].at];
    assert c == ChildrenIn(a, d.digest)[kids[j].at];
  }

  /** What a manifest resolves to depends on its digest alone. */
  lemma {:induction false} SameDigest(a: Archive, rank: map<string, nat>, render: Render, d: Descriptor,
      e: Descriptor, n: Node, o: Node)
    requires Ranked(a, rank) && d.digest == e.digest && Resolves(a, rank, render, d, n)
    requires Resolves(a, rank, render, e, o)
    ensures n.synthesized == o.synthesized && n.manifest == o.manifest && n.desc.digest == o.desc.digest
    ensures n.children == o.children
  {
  }

  ghost predicate KeptAt(kept: seq<Kept>, i: nat) {
    exists j :: 0 <= j < |kept| && kept[j].at == i
  }

  /** Pruning drops exactly the children the archive does not hold, in order. */
  lemma {:induction false} PrunesTheAbsent(a: Archive, rank: map<string, nat>, render: Render, d: string,
      m: Manifest, n: nat)
    requires Ranked(a, rank) && n <= |Children(m)|
    requires d in a.blobs && a.blobs[d].doc.Some? && a.blobs[d].doc.value.manifest == m
    requires ResolveChildren(a, rank, render, d, m, n).Some?
    ensures
      var kept := ResolveChildren(a, rank, render, d, m, n).value;
      && (forall i: nat :: i < n ==> (KeptAt(kept, i) <==> Children(m)[i].digest in a.blobs))
      && (forall j, k :: 0 <= j < k < |kept| ==> kept[j].at < kept[k].at < n)
      && (forall j :: 0 <= j < |kept| ==> kept[j].at < n)
    decreases n
  {
    hide Resolve, ResolveChildren, Children, Ranked;
    NoChildren(a, rank, render, d, m);
    if n > 0 {
      OneMore(a, rank, render, d, m, n);
      PrunesTheAbsent(a, rank, render, d, m, n - 1);
      var head := ResolveChildren(a, rank, render, d, m, n - 1).value;
      var kept := ResolveChildren(a, rank, render, d, m, n).value;
      NotKept(head, n - 1);
      hide KeptAt;
      forall i: nat | i < n ensures KeptAt(kept, i) <==> Children(m)[i].digest in a.blobs {
        if Children(m)[n - 1].digest in a.blobs { KeptMore(head, kept[|head|], i); }
      }
    }
  }

  lemma {:induction false} NoChildren(a: Archive, rank: map<string, nat>, render: Render, d: string, m: Manifest)
    requires Ranked(a, rank) && d in a.blobs && a.blobs[d].doc.Some? && a.blobs[d].doc.value.manifest == m
    ensures ResolveChildren(a, rank, render, d, m, 0) == Some([])
  {
  }

  lemma {:induction false} OneMore(a: Archive, rank: map<string, nat>, render: Render, d: string, m: Manifest, n: nat)
    requires Ranked(a, rank) && 0 < n <= |Children(m)|
    requires d in a.blobs && a.blobs[d].doc.Some? && a.blobs[d].doc.value.manifest == m
    requires ResolveChildren(a, rank, render, d, m, n).Some?
    ensures ResolveChildren(a, rank, render, d, m, n - 1).Some?
    ensures
      var head, kept := ResolveChildren(a, rank, render, d, m, n - 1).value, ResolveChildren(a, rank, render, d, m, n).value;
      if Children(m)[n - 1].digest in a.blobs then |kept| == |head| + 1 && kept == head + [kept[|head|]] && kept[|head|].at == n - 1
      else kept == head
  {
    hide Children, Ranked;
  }

  lemma {:induction false} NotKept(kept: seq<Kept>, n: nat)
    requires forall j :: 0 <= j < |kept| ==> kept[j].at < n
    ensures !KeptAt(kept, n)
  {
  }

  lemma {:induction false} KeptMore(head: seq<Kept>, last: Kept, i: nat)
    ensures KeptAt(head + [last], i) <==> KeptAt(head, i) || last.at == i
  {
    var kept := head + [last];
    if KeptAt(head, i) {
      var j :| 0 <= j < |head| && head[j].at == i;
      assert kept[j].at == i;
    }
    assert kept[|head|] == last;
  }

  // ---- When a manifest resolves -------------------------------------------------------

  /** c is a child of the index x, and the archive holds both. */
  ghost predicate HeldChild(a: Archive, x: string, c: string) {
    && IndexIn(a, x) && c in a.blobs
    && exists i :: 0 <= i < |ChildrenIn(a, x)| && ChildrenIn(a, x)[i].digest == c
  }

  predicate IndexIn(a: Archive, x: string) {
    x in a.blobs && a.blobs[x].doc.Some? && IsIndex(a.blobs[x].doc.value.manifest)
  }

  function ChildrenIn(a: Archive, x: string): seq<Descriptor>
    requires IndexIn(a, x)
  {
    Children(a.blobs[x].doc.value.manifest)
  }

  ghost predicate ReachesIn(a: Archive, x: string, y: string, n: nat)
    decreases n
  {
    if n == 0 then x == y else exists c :: HeldChild(a, x, c) && ReachesIn(a, c, y, n - 1)
  }

  /** y is x or lies below it, by way of indexes and children the archive holds. */
  ghost predicate Reaches(a: Archive, x: string, y: string) {
    exists n: nat :: ReachesIn(a, x, y, n)
  }

  /** What no plan can be made of: a blob that is no manifest, an image without one
      of its blobs, an index without any child, or one that cannot be rewritten
      without the children it lacks. */
  ghost predicate Unusable(a: Archive, x: string) {
    && x in a.blobs
    && match a.blobs[x].doc
       case None => true
       case Some(doc) =>
         if SaysImage(doc.manifest) then !BlobsAmong(doc.manifest, a.blobs.Keys)
         else NoneHeld(a, Children(doc.manifest)) || (!doc.rewritable && !AllPresent(a, Children(doc.manifest)))
  }

  ghost predicate NoneHeld(a: Archive, ds: seq<Descriptor>) {
    forall i :: 0 <= i < |ds| ==> ds[i].digest !in a.blobs
  }

  lemma {:induction false} ChildFails(a: Archive, rank: map<string, nat>, render: Render, d: string, m: Manifest,
      n: nat)
    requires Ranked(a, rank) && n <= |Children(m)|
    requires d in a.blobs && a.blobs[d].doc.Some? && a.blobs[d].doc.value.manifest == m
    ensures ResolveChildren(a, rank, render, d, m, n).None? <==>
      exists i :: 0 <= i < n && Resolve(a, rank, render, Children(m)[i]).Failed?
    decreases n
  {
    if n > 0 {
      ChildFails(a, rank, render, d, m, n - 1);
      assert Resolve(a, rank, render, Children(m)[n - 1]).Failed? ==> ResolveChildren(a, rank, render, d, m, n).None?;
      hide Resolve, Children, Ranked;
    }
  }

  /** How an index resolves, from what becomes of its children. */
  lemma {:induction false} IndexFails(a: Archive, rank: map<string, nat>, render: Render, d: Descriptor)
    requires Ranked(a, rank) && IndexIn(a, d.digest)
    ensures Resolve(a, rank, render, d).Failed? <==>
      || Unusable(a, d.digest)
      || exists i :: 0 <= i < |ChildrenIn(a, d.digest)| && Resolve(a, rank, render, ChildrenIn(a, d.digest)[i]).Failed?
  {
    var m := a.blobs[d.digest].doc.value.manifest;
    var n := |Children(m)|;
    ChildFails(a, rank, render, d.digest, m, n);
    var kids := ResolveChildren(a, rank, render, d.digest, m, n);
    assert Resolve(a, rank, render, d).Failed? <==>
      kids.None? || kids.value == [] || (|kids.value| != n && !a.blobs[d.digest].doc.value.rewritable);
    hide Resolve, ResolveChildren, Ranked, IsIndex;
    if kids.Some? {
      PrunesTheAbsent(a, rank, render, d.digest, m, n);
      KeptCounts(a, Children(m), kids.value);
    } else {
      var i :| 0 <= i < n && Resolve(a, rank, render, Children(m)[i]).Failed?;
      assert Resolve(a, rank, render, ChildrenIn(a, d.digest)[i]).Failed?;
    }
  }

  /** Kept positions increase, so none is missing exactly when all are kept. */
  lemma {:induction false} KeptCounts(a: Archive, ds: seq<Descriptor>, kept: seq<Kept>)
    requires forall i: nat :: i < |ds| ==> (KeptAt(kept, i) <==> ds[i].digest in a.blobs)
    requires forall j, k :: 0 <= j < k < |kept| ==> kept[j].at < kept[k].at < |ds|
    requires forall j :: 0 <= j < |kept| ==> kept[j].at < |ds|
    ensures kept == [] <==> NoneHeld(a, ds)
    ensures |kept| == |ds| <==> AllPresent(a, ds)
  {
    if kept != [] { assert KeptAt(kept, kept[0].at); }
    Increases(kept, |ds|);
    if |kept| == |ds| {
      forall i | 0 <= i < |ds| ensures ds[i].digest in a.blobs { assert kept[i].at == i && KeptAt(kept, i); }
    }
    if AllPresent(a, ds) { AllKept(kept, |ds|); }
  }

  lemma {:induction false} Increases(kept: seq<Kept>, n: nat)
    requires forall j, k :: 0 <= j < k < |kept| ==> kept[j].at < kept[k].at
    requires forall j :: 0 <= j < |kept| ==> kept[j].at < n
    ensures |kept| <= n && (|kept| == n ==> forall j :: 0 <= j < n ==> kept[j].at == j)
    decreases n
  {
    if kept != [] { Increases(kept[..|kept| - 1], kept[|kept| - 1].at); }
  }

  lemma {:induction false} AllKept(kept: seq<Kept>, n: nat)
    requires forall j, k :: 0 <= j < k < |kept| ==> kept[j].at < kept[k].at
    requires forall j :: 0 <= j < |kept| ==> kept[j].at < n
    requires forall i: nat :: i < n ==> KeptAt(kept, i)
    ensures |kept| >= n
    decreases n
  {
    if n > 0 {
      assert KeptAt(kept, n - 1);
      var j :| 0 <= j < |kept| && kept[j].at == n - 1;
      var init := kept[..j];
      forall i: nat | i < n - 1 ensures KeptAt(init, i) {
        assert KeptAt(kept, i);
        var k :| 0 <= k < |kept| && kept[k].at == i;
        assert k < j ==> init[k].at == i;
      }
      AllKept(init, n - 1);
    }
  }

  lemma {:induction false} ReachesSelf(a: Archive, x: string)
    ensures Reaches(a, x, x)
  {
    assert ReachesIn(a, x, x, 0);
  }

  lemma {:induction false} ReachesThrough(a: Archive, x: string, c: string, y: string)
    requires HeldChild(a, x, c) && Reaches(a, c, y)
    ensures Reaches(a, x, y)
  {
    var n: nat :| ReachesIn(a, c, y, n);
    assert ReachesIn(a, x, y, n + 1);
  }

  lemma {:induction false} FailureHasACause(a: Archive, rank: map<string, nat>, render: Render, d: Descriptor)
    returns (y: string)
    requires Ranked(a, rank) && Resolve(a, rank, render, d).Failed?
    ensures Reaches(a, d.digest, y) && Unusable(a, y)
    decreases RankOf(rank, d.digest)
  {
    ReachesSelf(a, d.digest);
    y := d.digest;
    if !Unusable(a, d.digest) {
      if !IndexIn(a, d.digest) { ImageFails(a, rank, render, d); }
      IndexFails(a, rank, render, d);
      var i :| 0 <= i < |ChildrenIn(a, d.digest)| && Resolve(a, rank, render, ChildrenIn(a, d.digest)[i]).Failed?;
      var c := ChildrenIn(a, d.digest)[i];
      assert RanksBelow(rank, c.digest, d.digest) && HeldChild(a, d.digest, c.digest);
      hide Resolve, Unusable, Ranked;
      y := FailureHasACause(a, rank, render, c);
      ReachesThrough(a, d.digest, c.digest, y);
    }
  }

  lemma {:induction false} ImageFails(a: Archive, rank: map<string, nat>, render: Render, d: Descriptor)
    requires Ranked(a, rank) && d.digest in a.blobs && !IndexIn(a, d.digest)
    ensures Resolve(a, rank, render, d).Failed? <==> Unusable(a, d.digest)
  {
    if a.blobs[d.digest].doc.Some? {
      var m := a.blobs[d.digest].doc.value.manifest;
      IndexByFields(m);
      BlobsByFields(m, a.blobs.Keys);
    }
    hide BlobsAmong, BlobDescriptors;
  }

  lemma {:induction false} CauseFails(a: Archive, rank: map<string, nat>, render: Render, d: Descriptor, y: string,
      n: nat)
    requires Ranked(a, rank) && ReachesIn(a, d.digest, y, n) && Unusable(a, y)
    ensures Resolve(a, rank, render, d).Failed?
    decreases n
  {
    if n == 0 {
      if IndexIn(a, d.digest) { IndexFails(a, rank, render, d); } else { ImageFails(a, rank, render, d); }
    } else {
      var c :| HeldChild(a, d.digest, c) && ReachesIn(a, c, y, n - 1);
      var i :| 0 <= i < |ChildrenIn(a, d.digest)| && ChildrenIn(a, d.digest)[i].digest == c;
      CauseFails(a, rank, render, ChildrenIn(a, d.digest)[i], y, n - 1);
      IndexFails(a, rank, render, d);
    }
  }

  /** A descriptor fails to resolve if and only if something unusable is reached
      from it; it is absent exactly when the archive lacks it, and else present. */
  lemma {:induction false} ResolvesExactly(a: Archive, rank: map<string, nat>, render: Render, d: Descriptor)
    requires Ranked(a, rank)
    ensures Resolve(a, rank, render, d).Failed? <==> exists y :: Reaches(a, d.digest, y) && Unusable(a, y)
    ensures Resolve(a, rank, render, d).Absent? <==> d.digest !in a.blobs
  {
    hide Unusable, Ranked;
    if Resolve(a, rank, render, d).Failed? { var y := FailureHasACause(a, rank, render, d); }
    if y :| Reaches(a, d.digest, y) && Unusable(a, y) {
      var n: nat :| ReachesIn(a, d.digest, y, n);
      CauseFails(a, rank, render, d, y, n);
    }
  }

  /** An index is rewritten exactly when the archive lacks one of its children. */
  predicate Gapped(a: Archive, x: string) {
    IndexIn(a, x) && !AllPresent(a, ChildrenIn(a, x))
  }

  lemma {:induction false} RewrittenExactly(a: Archive, rank: map<string, nat>, render: Render, d: Descriptor, n: Node)
    requires Ranked(a, rank) && Resolves(a, rank, render, d, n)
    ensures n.synthesized <==> Gapped(a, d.digest)
  {
    if IndexIn(a, d.digest) {
      var m := a.blobs[d.digest].doc.value.manifest;
      var kids := ResolveChildren(a, rank, render, d.digest, m, |Children(m)|).value;
      assert n.synthesized <==> |kids| != |Children(m)|;
      hide Resolve, ResolveChildren, Ranked, IsIndex;
      PrunesTheAbsent(a, rank, render, d.digest, m, |Children(m)|);
      KeptCounts(a, Children(m), kids);
    }
  }

  /** A child the archive holds is kept. */
  lemma {:induction false} HeldIsKept(a: Archive, rank: map<string, nat>, render: Render, d: Descriptor, n: Node,
      c: string)
    returns (j: nat, e: Descriptor)
    requires Ranked(a, rank) && Resolves(a, rank, render, d, n) && HeldChild(a, d.digest, c)
    ensures j < |n.children| && e.digest == c && Resolves(a, rank, render, e, n.children[j])
  {
    var m := a.blobs[d.digest].doc.value.manifest;
    var kids := ResolveChildren(a, rank, render, d.digest, m, |Children(m)|).value;
    assert n.children == Nodes(kids);
    ChildrenResolve(a, rank, render, d.digest, m, |Children(m)|);
    PrunesTheAbsent(a, rank, render, d.digest, m, |Children(m)|);
    hide Resolve, ResolveChildren, Ranked, IsIndex;
    var i :| 0 <= i < |ChildrenIn(a, d.digest)| && ChildrenIn(a, d.digest)[i].digest == c;
    assert KeptAt(kids, i);
    j :| 0 <= j < |kids| && kids[j].at == i;
    e := Children(m)[i];
  }

  // ---- Publish order --------------------------------------------------------------

  /** The nodes under a node, children first, itself last. */
  function Post(n: Node): seq<Node> {
    PostAll(n.children) + [n]
  }

  function PostAll(ns: seq<Node>): seq<Node> {
    if ns == [] then [] else PostAll(ns[..|ns| - 1]) + Post(ns[|ns| - 1])
  }

  function DigestsOf(ns: seq<Node>): (r: seq<string>)
    ensures |r| == |ns| && forall k :: 0 <= k < |ns| ==> r[k] == ns[k].desc.digest
  {
    seq(|ns|, k requires 0 <= k < |ns| => ns[k].desc.digest)
  }

  datatype PlanManifest = PlanManifest(
    digest: string, mediaType: string, body: Manifest, isIndex: bool, synthesized: bool, attestation: bool)

  datatype PlanBlob = PlanBlob(digest: string, size: nat, mediaType: string)

  function ManifestOf(n: Node): PlanManifest {
    PlanManifest(n.desc.digest, n.desc.mediaType, n.manifest, IsIndex(n.manifest), n.synthesized, n.desc.attestation)
  }

  ghost predicate Lists(ms: seq<PlanManifest>, d: string) {
    exists k :: 0 <= k < |ms| && ms[k].digest == d
  }

  /** The unique manifests, first use first. */
  ghost function AddManifests(ms: seq<PlanManifest>, ns: seq<Node>): seq<PlanManifest> {
    if ns == [] then ms
    else
      var head := AddManifests(ms, ns[..|ns| - 1]);
      var n := ns[|ns| - 1];
      if Lists(head, n.desc.digest) then head else head + [ManifestOf(n)]
  }

  ghost predicate ListsBlob(bs: seq<PlanBlob>, d: string) {
    exists k :: 0 <= k < |bs| && bs[k].digest == d
  }

  function SizeIn(a: Archive, d: string): nat {
    if d in a.blobs then a.blobs[d].size else 0
  }

  ghost function AddBlobs(a: Archive, bs: seq<PlanBlob>, ds: seq<Descriptor>): seq<PlanBlob> {
    if ds == [] then bs
    else
      var head := AddBlobs(a, bs, ds[..|ds| - 1]);
      var d := ds[|ds| - 1];
      if ListsBlob(head, d.digest) then head else head + [PlanBlob(d.digest, SizeIn(a, d.digest), d.mediaType)]
  }

  /** The unique blobs of the nodes, first use first. */
  ghost function AddAllBlobs(a: Archive, bs: seq<PlanBlob>, ns: seq<Node>): seq<PlanBlob> {
    if ns == [] then bs
    else AddBlobs(a, AddAllBlobs(a, bs, ns[..|ns| - 1]), BlobDescriptors(ns[|ns| - 1].manifest))
  }

  lemma {:induction false} AddManifestsJoin(ms: seq<PlanManifest>, xs: seq<Node>, ys: seq<Node>)
    ensures AddManifests(AddManifests(ms, xs), ys) == AddManifests(ms, xs + ys)
  {
    if ys == [] {
      assert xs + ys == xs;
    } else {
      assert (xs + ys)[..|xs + ys| - 1] == xs + ys[..|ys| - 1];
      AddManifestsJoin(ms, xs, ys[..|ys| - 1]);
    }
  }

  lemma {:induction false} AddAllBlobsJoin(a: Archive, bs: seq<PlanBlob>, xs: seq<Node>, ys: seq<Node>)
    ensures AddAllBlobs(a, AddAllBlobs(a, bs, xs), ys) == AddAllBlobs(a, bs, xs + ys)
  {
    if ys == [] {
      assert xs + ys == xs;
    } else {
      assert (xs + ys)[..|xs + ys| - 1] == xs + ys[..|ys| - 1];
      AddAllBlobsJoin(a, bs, xs, ys[..|ys| - 1]);
    }
  }

  lemma {:induction false} PostNext(ns: seq<Node>, k: nat)
    requires k < |ns|
    ensures PostAll(ns[..k + 1]) == PostAll(ns[..k]) + Post(ns[k])
  {
    assert ns[..k + 1][..k] == ns[..k];
  }

  /** One entry of index.json with its manifests in publish order. */
  datatype Entry = Entry(digest: string, isIndex: bool, manifests: seq<string>)

  datatype Plan = Plan(blobs: seq<PlanBlob>, manifests: seq<PlanManifest>, entries: seq<Entry>)

  class Planner {
    const archive: Archive
    var blobs: seq<PlanBlob>
    var manifests: seq<PlanManifest>
    var listed: seq<string>          // the entry's manifests so far
    var seenBlob: set<string>
    var seenManifest: set<string>

    ghost predicate Valid()
      reads this`blobs, this`manifests, this`seenBlob, this`seenManifest
    {
      && (forall d :: d in seenBlob <==> ListsBlob(blobs, d))
      && (forall d :: d in seenManifest <==> Lists(manifests, d))
    }

    constructor (archive: Archive)
      ensures Valid() && this.archive == archive && blobs == [] && manifests == [] && listed == []
    {
      this.archive := archive;
      blobs, manifests, listed, seenBlob, seenManifest := [], [], [], {}, {};
    }

    method CollectBlobs(ds: seq<Descriptor>)
      requires Valid()
      modifies this`blobs, this`seenBlob
      ensures Valid() && blobs == AddBlobs(archive, old(blobs), ds)
    {
      for k := 0 to |ds|
        invariant Valid() && blobs == AddBlobs(archive, old(blobs), ds[..k])
      {
        assert ds[..k + 1][..k] == ds[..k];
        var d := ds[k];
        if d.digest !in seenBlob {
          seenBlob := seenBlob + {d.digest};
          var b := PlanBlob(d.digest, SizeIn(archive, d.digest), d.mediaType);
          ListsBlobMore(blobs, b);
          blobs := blobs + [b];
        }
      }
      assert ds[..|ds|] == ds;
    }

    method CollectManifest(n: Node)
      requires Valid()
      modifies this`manifests, this`seenManifest
      ensures Valid()
      ensures manifests == if Lists(old(manifests), n.desc.digest) then old(manifests) else old(manifests) + [ManifestOf(n)]
    {
      if n.desc.digest !in seenManifest {
        seenManifest := seenManifest + {n.desc.digest};
        ListsMore(manifests, ManifestOf(n));
        manifests := manifests + [ManifestOf(n)];
      }
    }

    /** walk: the children, then the node's blobs, then the node. */
    method Walk(n: Node)
      requires Valid()
      modifies this
      ensures Valid()
      ensures manifests == AddManifests(old(manifests), Post(n))
      ensures blobs == AddAllBlobs(archive, old(blobs), Post(n))
      ensures listed == old(listed) + DigestsOf(Post(n))
      decreases n
    {
      hide *;
      ghost var ms, bs, l := manifests, blobs, listed;
      Unwalked(archive, ms, bs, n.children);
      assert l + DigestsOf(PostAll(n.children[..0])) == l;
      for k := 0 to |n.children|
        invariant Valid()
        invariant manifests == AddManifests(ms, PostAll(n.children[..k]))
        invariant blobs == AddAllBlobs(archive, bs, PostAll(n.children[..k]))
        invariant listed == l + DigestsOf(PostAll(n.children[..k]))
      {
        Walk(n.children[k]);
        Walked(archive, ms, bs, n.children, k);
      }
      CollectBlobs(BlobDescriptors(n.manifest));
      CollectManifest(n);
      listed := listed + [n.desc.digest];
      WalkedSelf(archive, ms, bs, n);
    }
  }

  lemma {:induction false} ListsMore(ms: seq<PlanManifest>, m: PlanManifest)
    ensures forall d :: Lists(ms + [m], d) <==> Lists(ms, d) || d == m.digest
  {
    forall d ensures Lists(ms + [m], d) <==> Lists(ms, d) || d == m.digest {
      if Lists(ms, d) {
        var k :| 0 <= k < |ms| && ms[k].digest == d;
        assert (ms + [m])[k].digest == d;
      }
      assert (ms + [m])[|ms|] == m;
    }
  }

  lemma {:induction false} ListsBlobMore(bs: seq<PlanBlob>, b: PlanBlob)
    ensures forall d :: ListsBlob(bs + [b], d) <==> ListsBlob(bs, d) || d == b.digest
  {
    forall d ensures ListsBlob(bs + [b], d) <==> ListsBlob(bs, d) || d == b.digest {
      if ListsBlob(bs, d) {
        var k :| 0 <= k < |bs| && bs[k].digest == d;
        assert (bs + [b])[k].digest == d;
      }
      assert (bs + [b])[|bs|] == b;
    }
  }

  lemma {:induction false} Unwalked(a: Archive, ms: seq<PlanManifest>, bs: seq<PlanBlob>, ns: seq<Node>)
    ensures AddManifests(ms, PostAll(ns[..0])) == ms && AddAllBlobs(a, bs, PostAll(ns[..0])) == bs
    ensures DigestsOf(PostAll(ns[..0])) == []
  {
  }

  lemma {:induction false} Walked(a: Archive, ms: seq<PlanManifest>, bs: seq<PlanBlob>, ns: seq<Node>, k: nat)
    requires k < |ns|
    ensures AddManifests(AddManifests(ms, PostAll(ns[..k])), Post(ns[k])) == AddManifests(ms, PostAll(ns[..k + 1]))
    ensures AddAllBlobs(a, AddAllBlobs(a, bs, PostAll(ns[..k])), Post(ns[k])) == AddAllBlobs(a, bs, PostAll(ns[..k + 1]))
    ensures DigestsOf(PostAll(ns[..k])) + DigestsOf(Post(ns[k])) == DigestsOf(PostAll(ns[..k + 1]))
  {
    hide AddManifests, AddAllBlobs, Post, PostAll;
    PostNext(ns, k);
    AddManifestsJoin(ms, PostAll(ns[..k]), Post(ns[k]));
    AddAllBlobsJoin(a, bs, PostAll(ns[..k]), Post(ns[k]));
  }

  lemma {:induction false} WalkedSelf(a: Archive, ms: seq<PlanManifest>, bs: seq<PlanBlob>, n: Node)
    ensures
      var kids := PostAll(n.children[..|n.children|]);
      var below := AddManifests(ms, kids);
      && AddManifests(ms, Post(n)) ==
           (if Lists(below, n.desc.digest) then below else below + [ManifestOf(n)])
      && AddAllBlobs(a, bs, Post(n)) == AddBlobs(a, AddAllBlobs(a, bs, kids), BlobDescriptors(n.manifest))
      && DigestsOf(Post(n)) == DigestsOf(kids) + [n.desc.digest]
  {
    hide *;
    assert n.children[..|n.children|] == n.children;
    PostIs(n);
    FoldLast(a, ms, bs, PostAll(n.children), n);
    DigestsLast(PostAll(n.children), n);
  }

  lemma {:induction false} PostIs(n: Node)
    ensures Post(n) == PostAll(n.children) + [n]
  {
  }

  lemma {:induction false} DigestsLast(ns: seq<Node>, n: Node)
    ensures DigestsOf(ns + [n]) == DigestsOf(ns) + [n.desc.digest]
  {
  }

  lemma {:induction false} FoldLast(a: Archive, ms: seq<PlanManifest>, bs: seq<PlanBlob>, ns: seq<Node>, n: Node)
    ensures
      var below := AddManifests(ms, ns);
      AddManifests(ms, ns + [n]) == if Lists(below, n.desc.digest) then below else below + [ManifestOf(n)]
    ensures AddAllBlobs(a, bs, ns + [n]) == AddBlobs(a, AddAllBlobs(a, bs, ns), BlobDescriptors(n.manifest))
  {
    hide Lists, AddBlobs, ManifestOf, BlobDescriptors;
    assert (ns + [n])[..|ns|] == ns;
  }

  function EntryOf(n: Node): Entry {
    Entry(n.desc.digest, IsIndex(n.manifest), DigestsOf(Post(n)))
  }

  /** What the plan of the given roots holds. */
  ghost function PlanOf(a: Archive, roots: seq<Node>): Plan {
    Plan(AddAllBlobs(a, [], PostAll(roots)), AddManifests([], PostAll(roots)),
         seq(|roots|, i requires 0 <= i < |roots| => EntryOf(roots[i])))
  }

  ghost predicate HasRoot(roots: seq<Node>, d: string) {
    exists i :: 0 <= i < |roots| && roots[i].desc.digest == d
  }

  ghost predicate Listed(a: Archive, rank: map<string, nat>, render: Render, count: nat, n: Node)
    requires Ranked(a, rank) && count <= |a.index|
  {
    exists k :: 0 <= k < count && Resolves(a, rank, render, a.index[k], n)
  }

  /** The first `count` index.json entries resolve to exactly these roots. */
  ghost predicate RootsOf(a: Archive, rank: map<string, nat>, render: Render, roots: seq<Node>, count: nat)
    requires Ranked(a, rank) && count <= |a.index|
  {
    && (forall i :: 0 <= i < |roots| ==> Listed(a, rank, render, count, roots[i]))
    && (forall i, j :: 0 <= i < j < |roots| ==> roots[i].desc.digest != roots[j].desc.digest)
    && (forall k :: 0 <= k < count ==> RootFor(a, rank, render, roots, a.index[k]))
  }

  ghost predicate RootFor(a: Archive, rank: map<string, nat>, render: Render, roots: seq<Node>, d: Descriptor)
    requires Ranked(a, rank)
  {
    var r := Resolve(a, rank, render, d);
    r.Present? && HasRoot(roots, r.node.desc.digest)
  }

  /** The roots are in the order of index.json: the i-th is its entry at[i], the first
      to resolve to that digest. */
  ghost predicate InOrder(a: Archive, rank: map<string, nat>, render: Render, roots: seq<Node>, at: seq<nat>,
      count: nat)
    requires Ranked(a, rank) && count <= |a.index|
  {
    && |at| == |roots|
    && (forall i :: 0 <= i < |at| ==> at[i] < count && Resolves(a, rank, render, a.index[at[i]], roots[i]))
    && (forall i, j :: 0 <= i < j < |at| ==> at[i] < at[j])
    && (forall i, k :: 0 <= i < |at| && 0 <= k < at[i] ==> !ResolvesTo(a, rank, render, a.index[k], roots[i].desc.digest))
  }

  ghost predicate ResolvesTo(a: Archive, rank: map<string, nat>, render: Render, d: Descriptor, digest: string)
    requires Ranked(a, rank)
  {
    var r := Resolve(a, rank, render, d);
    r.Present? && r.node.desc.digest == digest
  }

  lemma {:induction false} OrderNext(a: Archive, rank: map<string, nat>, render: Render, roots: seq<Node>,
      at: seq<nat>, k: nat, n: Node)
    requires Ranked(a, rank) && k < |a.index| && InOrder(a, rank, render, roots, at, k)
    requires RootsOf(a, rank, render, roots, k) && Resolve(a, rank, render, a.index[k]) == Present(n)
    ensures InOrder(a, rank, render, roots, at, k + 1)
    ensures !HasRoot(roots, n.desc.digest) ==> InOrder(a, rank, render, roots + [n], at + [k], k + 1)
  {
    hide Resolve, Ranked, Listed, HasRoot;
    if !HasRoot(roots, n.desc.digest) {
      assert Resolves(a, rank, render, a.index[k], n);
      forall j | 0 <= j < k ensures !ResolvesTo(a, rank, render, a.index[j], n.desc.digest) {
        assert RootFor(a, rank, render, roots, a.index[j]);
      }
      hide ResolvesTo, Resolves, RootFor;
    }
  }

  /** The first loop of Plan: fails exactly when an entry does not resolve. */
  method FindRoots(a: Archive, ghost rank: map<string, nat>, render: Render)
    returns (r: Option<seq<Node>>, ghost at: seq<nat>)
    requires Ranked(a, rank)
    ensures r.Some? <==> forall k :: 0 <= k < |a.index| ==> Resolve(a, rank, render, a.index[k]).Present?
    ensures r.Some? ==> RootsOf(a, rank, render, r.value, |a.index|) && InOrder(a, rank, render, r.value, at, |a.index|)
  {
    var roots: seq<Node>, seen: set<string> := [], {};
    at := [];
    hide Resolve, Ranked, HasRoot, Listed, InOrder;
    NoRoots(a, rank, render);
    for k := 0 to |a.index|
      invariant RootsOf(a, rank, render, roots, k) && InOrder(a, rank, render, roots, at, k)
      invariant forall d :: d in seen <==> HasRoot(roots, d)
      invariant forall i :: 0 <= i < k ==> Resolve(a, rank, render, a.index[i]).Present?
    {
      hide RootsOf;
      var n := Resolve(a, rank, render, a.index[k]);
      if !n.Present? {
        return None, at;
      }
      RootsNext(a, rank, render, roots, k, n.node);
      OrderNext(a, rank, render, roots, at, k, n.node);
      HasRootMore(roots, n.node);
      if n.node.desc.digest !in seen {
        seen := seen + {n.node.desc.digest};
        roots, at := roots + [n.node], at + [k];
      }
    }
    return Some(roots), at;
  }

  lemma {:induction false} NoRoots(a: Archive, rank: map<string, nat>, render: Render)
    requires Ranked(a, rank)
    ensures RootsOf(a, rank, render, [], 0) && InOrder(a, rank, render, [], [], 0) && forall d :: !HasRoot([], d)
  {
  }

  lemma {:induction false} HasRootMore(roots: seq<Node>, n: Node)
    ensures forall d :: HasRoot(roots + [n], d) <==> HasRoot(roots, d) || d == n.desc.digest
  {
    forall d ensures HasRoot(roots + [n], d) <==> HasRoot(roots, d) || d == n.desc.digest {
      if HasRoot(roots, d) {
        var i :| 0 <= i < |roots| && roots[i].desc.digest == d;
        assert (roots + [n])[i].desc.digest == d;
      }
      assert (roots + [n])[|roots|] == n;
    }
  }

  lemma {:induction false} ListedLater(a: Archive, rank: map<string, nat>, render: Render, k: nat)
    requires Ranked(a, rank) && k < |a.index|
    ensures forall n :: Listed(a, rank, render, k, n) || Resolves(a, rank, render, a.index[k], n) ==>
      Listed(a, rank, render, k + 1, n)
  {
    hide Resolve, Ranked;
  }

  lemma {:induction false} RootsNext(a: Archive, rank: map<string, nat>, render: Render, was: seq<Node>, k: nat,
      n: Node)
    requires Ranked(a, rank) && k < |a.index| && RootsOf(a, rank, render, was, k)
    requires Resolve(a, rank, render, a.index[k]) == Present(n)
    ensures RootsOf(a, rank, render, if HasRoot(was, n.desc.digest) then was else was + [n], k + 1)
  {
    hide Resolve, Ranked, HasRoot, Listed;
    ListedLater(a, rank, render, k);
    HasRootMore(was, n);
    RootsHeld(was);
    var now := if HasRoot(was, n.desc.digest) then was else was + [n];
    assert Resolves(a, rank, render, a.index[k], n);
    hide Resolves;
    forall j | 0 <= j < k + 1 ensures RootFor(a, rank, render, now, a.index[j]) {
      if j < k { assert RootFor(a, rank, render, was, a.index[j]); }
    }
    hide RootFor;
  }

  lemma {:induction false} RootsHeld(roots: seq<Node>)
    ensures forall i :: 0 <= i < |roots| ==> HasRoot(roots, roots[i].desc.digest)
  {
  }

  /** Archive.Plan up to the names: None when an entry does not resolve. */
  method MakePlan(a: Archive, ghost rank: map<string, nat>, render: Render) returns (p: Option<Plan>)
    requires Ranked(a, rank)
    ensures p.Some? <==> forall k :: 0 <= k < |a.index| ==> Resolve(a, rank, render, a.index[k]).Present?
    ensures p.Some? ==> exists roots, at ::
      RootsOf(a, rank, render, roots, |a.index|) && InOrder(a, rank, render, roots, at, |a.index|) &&
      p.value == PlanOf(a, roots)
  {
    hide Resolve, Ranked, RootsOf, InOrder, AddManifests, AddAllBlobs, Post, PostAll;
    var found, at := FindRoots(a, rank, render);
    if found.None? {
      return None;
    }
    var rs := found.value;
    var planner := new Planner(a);
    var entries: seq<Entry> := [];
    Unwalked(a, [], [], rs);
    for i := 0 to |rs|
      invariant fresh(planner) && planner.archive == a && planner.Valid() && |entries| == i
      invariant planner.manifests == AddManifests([], PostAll(rs[..i]))
      invariant planner.blobs == AddAllBlobs(a, [], PostAll(rs[..i]))
      invariant forall j :: 0 <= j < i ==> entries[j] == EntryOf(rs[j])
    {
      planner.listed := [];
      planner.Walk(rs[i]);
      Walked(a, [], [], rs, i);
      entries := entries + [Entry(rs[i].desc.digest, IsIndex(rs[i].manifest), planner.listed)];
    }
    assert rs[..|rs|] == rs;
    assert entries == seq(|rs|, i requires 0 <= i < |rs| => EntryOf(rs[i]));
    return Some(Plan(planner.blobs, planner.manifests, entries));
  }

  // ---- What every plan promises -----------------------------------------------------

  /** Every child comes before its parent. */
  ghost predicate ChildrenFirst(ns: seq<Node>) {
    forall i, j :: 0 <= i < |ns| && 0 <= j < |ns[i].children| ==> Before(ns, ns[i].children[j], i)
  }

  ghost predicate Before(ns: seq<Node>, c: Node, i: nat) {
    exists k :: 0 <= k < i && k < |ns| && ns[k] == c
  }

  lemma {:induction false} BeforeLonger(xs: seq<Node>, ys: seq<Node>, c: Node, i: nat, shift: nat)
    requires Before(ys, c, i) && shift == |xs|
    ensures Before(xs + ys, c, shift + i)
  {
    var k :| 0 <= k < i && k < |ys| && ys[k] == c;
    assert (xs + ys)[shift + k] == c;
  }

  lemma {:induction false} BeforeSame(xs: seq<Node>, ys: seq<Node>, c: Node, i: nat)
    requires Before(xs, c, i)
    ensures Before(xs + ys, c, i)
  {
    var k :| 0 <= k < i && k < |xs| && xs[k] == c;
    assert (xs + ys)[k] == c;
  }

  lemma {:induction false} ChildrenFirstJoin(xs: seq<Node>, ys: seq<Node>)
    requires ChildrenFirst(xs) && ChildrenFirst(ys)
    ensures ChildrenFirst(xs + ys)
  {
    hide Before;
    var ns := xs + ys;
    forall i, j | 0 <= i < |ns| && 0 <= j < |ns[i].children| ensures Before(ns, ns[i].children[j], i) {
      if i < |xs| {
        assert ns[i] == xs[i];
        BeforeSame(xs, ys, xs[i].children[j], i);
      } else {
        assert ns[i] == ys[i - |xs|];
        BeforeLonger(xs, ys, ys[i - |xs|].children[j], i - |xs|, |xs|);
      }
    }
  }

  /** Each root of a list is in its post-order. */
  lemma {:induction false} PostHolds(ns: seq<Node>, i: nat)
    requires i < |ns|
    ensures Before(PostAll(ns), ns[i], |PostAll(ns)|)
  {
    var last := |ns| - 1;
    var head, tail := PostAll(ns[..last]), Post(ns[last]);
    if i < last {
      PostHolds(ns[..last], i);
      BeforeSame(head, tail, ns[i], |head|);
      var k :| 0 <= k < |head| && k < |PostAll(ns)| && PostAll(ns)[k] == ns[i];
    } else {
      assert PostAll(ns)[|PostAll(ns)| - 1] == ns[i];
    }
  }

  /** Children first and the node itself last, for a node. */
  lemma {:induction false} PostOrder(n: Node)
    ensures ChildrenFirst(Post(n)) && Post(n)[|Post(n)| - 1] == n
    decreases n, 0
  {
    PostOrderAll(n.children);
    var kids := PostAll(n.children);
    forall i, j | 0 <= i < |Post(n)| && 0 <= j < |Post(n)[i].children|
      ensures Before(Post(n), Post(n)[i].children[j], i) {
      if i < |kids| {
        assert Post(n)[i] == kids[i];
        BeforeSame(kids, [n], kids[i].children[j], i);
      } else {
        PostHolds(n.children, j);
        BeforeSame(kids, [n], n.children[j], |kids|);
      }
    }
  }

  lemma {:induction false} PostOrderAll(ns: seq<Node>)
    ensures ChildrenFirst(PostAll(ns))
    decreases ns, 1
  {
    if ns != [] {
      PostOrderAll(ns[..|ns| - 1]);
      PostOrder(ns[|ns| - 1]);
      ChildrenFirstJoin(PostAll(ns[..|ns| - 1]), Post(ns[|ns| - 1]));
    }
  }

  ghost predicate Known(a: Archive, rank: map<string, nat>, render: Render, n: Node)
    requires Ranked(a, rank)
  {
    exists d :: Resolves(a, rank, render, d, n)
  }

  ghost predicate AllKnown(a: Archive, rank: map<string, nat>, render: Render, ns: seq<Node>)
    requires Ranked(a, rank)
  {
    forall i :: 0 <= i < |ns| ==> Known(a, rank, render, ns[i])
  }

  lemma {:induction false} KnownChildren(a: Archive, rank: map<string, nat>, render: Render, n: Node)
    requires Ranked(a, rank) && Known(a, rank, render, n)
    ensures AllKnown(a, rank, render, n.children)
  {
    var d :| Resolves(a, rank, render, d, n);
    forall j | 0 <= j < |n.children| ensures Known(a, rank, render, n.children[j]) {
      var c := ResolvesChild(a, rank, render, d, n, j);
    }
  }

  lemma {:induction false} PostKnown(a: Archive, rank: map<string, nat>, render: Render, n: Node)
    requires Ranked(a, rank) && Known(a, rank, render, n)
    ensures AllKnown(a, rank, render, Post(n))
    decreases n, 0
  {
    hide Resolve, Ranked, Known;
    KnownChildren(a, rank, render, n);
    PostAllKnown(a, rank, render, n.children);
  }

  lemma {:induction false} PostAllKnown(a: Archive, rank: map<string, nat>, render: Render, ns: seq<Node>)
    requires Ranked(a, rank) && AllKnown(a, rank, render, ns)
    ensures AllKnown(a, rank, render, PostAll(ns))
    decreases ns, 1
  {
    hide Resolve, Ranked, Known;
    if ns != [] {
      PostAllKnown(a, rank, render, ns[..|ns| - 1]);
      PostKnown(a, rank, render, ns[|ns| - 1]);
    }
  }

  lemma {:induction false} RootsKnown(a: Archive, rank: map<string, nat>, render: Render, roots: seq<Node>)
    requires Ranked(a, rank) && RootsOf(a, rank, render, roots, |a.index|)
    ensures AllKnown(a, rank, render, roots) && AllKnown(a, rank, render, PostAll(roots))
  {
    hide Resolve, Ranked, PostAll;
    PostAllKnown(a, rank, render, roots);
  }

  ghost predicate UniqueManifests(ms: seq<PlanManifest>) {
    forall i, j :: 0 <= i < j < |ms| ==> ms[i].digest != ms[j].digest
  }

  ghost predicate UniqueBlobs(bs: seq<PlanBlob>) {
    forall i, j :: 0 <= i < j < |bs| ==> bs[i].digest != bs[j].digest
  }

  ghost predicate IsOneOf(ns: seq<Node>, m: PlanManifest) {
    exists k :: 0 <= k < |ns| && m == ManifestOf(ns[k])
  }

  lemma {:induction false} OneOfMore(ns: seq<Node>, n: Node, m: PlanManifest)
    requires IsOneOf(ns, m) || m == ManifestOf(n)
    ensures IsOneOf(ns + [n], m)
  {
    var more := ns + [n];
    if IsOneOf(ns, m) {
      var k :| 0 <= k < |ns| && m == ManifestOf(ns[k]);
      assert more[k] == ns[k];
    } else {
      assert more[|ns|] == n;
    }
  }

  ghost predicate ListsAll(ms: seq<PlanManifest>, ns: seq<Node>) {
    forall k :: 0 <= k < |ns| ==> Lists(ms, ns[k].desc.digest)
  }

  lemma {:induction false} UniqueMore(ms: seq<PlanManifest>, m: PlanManifest)
    requires UniqueManifests(ms) && !Lists(ms, m.digest)
    ensures UniqueManifests(ms + [m])
  {
  }

  /** The manifests are unique, and exactly those of the nodes. */
  lemma {:induction false} ManifestsExact(ns: seq<Node>)
    ensures var ms := AddManifests([], ns);
      && UniqueManifests(ms) && ListsAll(ms, ns)
      && (forall i :: 0 <= i < |ms| ==> IsOneOf(ns, ms[i]))
  {
    if ns != [] {
      var init, n := ns[..|ns| - 1], ns[|ns| - 1];
      assert ns == init + [n];
      ManifestsExact(init);
      var head, ms := AddManifests([], init), AddManifests([], ns);
      ListsMore(head, ManifestOf(n));
      if !Lists(head, n.desc.digest) { UniqueMore(head, ManifestOf(n)); }
      hide Lists, UniqueManifests, IsOneOf, AddManifests;
      forall i | 0 <= i < |ms| ensures IsOneOf(ns, ms[i]) { OneOfMore(init, n, ms[i]); }
    }
  }

  ghost predicate Naming(ds: seq<Descriptor>, d: string) {
    exists k :: 0 <= k < |ds| && ds[k].digest == d
  }

  lemma {:induction false} NamingMore(ds: seq<Descriptor>, last: Descriptor, d: string)
    ensures Naming(ds + [last], d) <==> Naming(ds, d) || last.digest == d
  {
    var more := ds + [last];
    if k :| 0 <= k < |ds| && ds[k].digest == d { assert more[k].digest == d; }
    assert more[|ds|] == last;
  }

  /** d is the config or a layer of the node's manifest, which is no index. */
  ghost predicate NeedsBlob(n: Node, d: string) {
    exists size :: BlobOf(n.manifest, d, size)
  }

  lemma {:induction false} NeedsByFields(n: Node, d: string)
    ensures NeedsBlob(n, d) <==> Naming(BlobDescriptors(n.manifest), d)
  {
    BlobsByFields(n.manifest, {});
    if size :| BlobOf(n.manifest, d, size) { BlobIsListed(n.manifest, d, size); }
  }

  ghost predicate Needed(ns: seq<Node>, d: string) {
    exists k :: 0 <= k < |ns| && NeedsBlob(ns[k], d)
  }

  lemma {:induction false} NeededMore(ns: seq<Node>, n: Node, d: string)
    ensures Needed(ns + [n], d) <==> Needed(ns, d) || NeedsBlob(n, d)
  {
    hide NeedsBlob;
    var more := ns + [n];
    if k :| 0 <= k < |ns| && NeedsBlob(ns[k], d) { assert NeedsBlob(more[k], d); }
    assert more[|ns|] == n;
  }

  lemma {:induction false} UniqueBlobsMore(bs: seq<PlanBlob>, b: PlanBlob)
    requires UniqueBlobs(bs) && !ListsBlob(bs, b.digest)
    ensures UniqueBlobs(bs + [b])
  {
  }

  lemma {:induction false} BlobsFold(a: Archive, bs: seq<PlanBlob>, ds: seq<Descriptor>)
    requires UniqueBlobs(bs)
    ensures var now := AddBlobs(a, bs, ds);
      UniqueBlobs(now) && forall d :: ListsBlob(now, d) <==> ListsBlob(bs, d) || Naming(ds, d)
  {
    if ds != [] {
      var init, last := ds[..|ds| - 1], ds[|ds| - 1];
      assert ds == init + [last];
      BlobsFold(a, bs, init);
      var head, now := AddBlobs(a, bs, init), AddBlobs(a, bs, ds);
      var b := PlanBlob(last.digest, SizeIn(a, last.digest), last.mediaType);
      ListsBlobMore(head, b);
      if !ListsBlob(head, last.digest) { UniqueBlobsMore(head, b); }
      hide AddBlobs, UniqueBlobs, ListsBlob, Naming;
      forall d ensures ListsBlob(now, d) <==> ListsBlob(bs, d) || Naming(ds, d) { NamingMore(init, last, d); }
    }
  }

  /** The blobs are unique, and exactly those the nodes need. */
  lemma {:induction false} BlobsExact(a: Archive, ns: seq<Node>)
    ensures var bs := AddAllBlobs(a, [], ns);
      UniqueBlobs(bs) && forall d :: ListsBlob(bs, d) <==> Needed(ns, d)
  {
    if ns != [] {
      var init, n := ns[..|ns| - 1], ns[|ns| - 1];
      assert ns == init + [n];
      BlobsExact(a, init);
      BlobsFold(a, AddAllBlobs(a, [], init), BlobDescriptors(n.manifest));
      hide AddBlobs, UniqueBlobs, BlobDescriptors, ListsBlob, Naming, Needed, NeedsBlob;
      forall d ensures ListsBlob(AddAllBlobs(a, [], ns), d) <==> Needed(ns, d) {
        NeededMore(init, n, d);
        NeedsByFields(n, d);
      }
    }
  }

  /** In any plan: manifests and blobs are unique and exactly those of the
      resolved nodes, a needed blob is in the archive, and each entry's list has
      every child before its parent and the entry last. */
  lemma {:induction false} PlanIsComplete(a: Archive, rank: map<string, nat>, render: Render, roots: seq<Node>)
    requires Ranked(a, rank) && RootsOf(a, rank, render, roots, |a.index|)
    ensures var p := PlanOf(a, roots); var ns := PostAll(roots);
      && UniqueManifests(p.manifests) && UniqueBlobs(p.blobs)
      && ListsAll(p.manifests, ns) && (forall i :: 0 <= i < |p.manifests| ==> IsOneOf(ns, p.manifests[i]))
      && (forall d :: ListsBlob(p.blobs, d) <==> Needed(ns, d))
      && (forall d :: ListsBlob(p.blobs, d) ==> d in a.blobs)
    ensures forall i :: 0 <= i < |roots| ==>
      && ChildrenFirst(Post(roots[i])) && PlanOf(a, roots).entries[i].manifests == DigestsOf(Post(roots[i]))
      && Post(roots[i])[|Post(roots[i])| - 1] == roots[i]
  {
    var ns := PostAll(roots);
    ManifestsExact(ns);
    BlobsExact(a, ns);
    RootsKnown(a, rank, render, roots);
    hide AddManifests, AddAllBlobs, PostAll, RootsOf;
    forall d, k | 0 <= k < |ns| && NeedsBlob(ns[k], d) ensures d in a.blobs {
      NeededIsHeld(a, rank, render, ns[k], d);
    }
    forall i | 0 <= i < |roots|
      ensures ChildrenFirst(Post(roots[i])) && Post(roots[i])[|Post(roots[i])| - 1] == roots[i] {
      PostOrder(roots[i]);
    }
  }

  lemma {:induction false} NeededIsHeld(a: Archive, rank: map<string, nat>, render: Render, n: Node, d: string)
    requires Ranked(a, rank) && Known(a, rank, render, n) && NeedsBlob(n, d)
    ensures d in a.blobs
  {
    var e :| Resolves(a, rank, render, e, n);
    ResolvesLocal(a, rank, render, e, n);
  }

  // ---- The rows of a plan, field by field ------------------------------------------

  ghost predicate BlobRow(a: Archive, d: Descriptor, b: PlanBlob) {
    && b.digest == d.digest && b.mediaType == d.mediaType
    && (d.digest in a.blobs ==> b.size == a.blobs[d.digest].size)
  }

  /** b is the row of a blob some node's manifest names. */
  ghost predicate BlobRowOf(a: Archive, ns: seq<Node>, b: PlanBlob) {
    exists k, d :: 0 <= k < |ns| && BlobDescriptorOf(ns[k].manifest, d) && BlobRow(a, d, b)
  }

  ghost predicate BlobRowFrom(a: Archive, ds: seq<Descriptor>, b: PlanBlob) {
    exists d :: d in ds && BlobRow(a, d, b)
  }

  lemma {:induction false} RowsOfOne(a: Archive, bs: seq<PlanBlob>, ds: seq<Descriptor>)
    ensures var now := AddBlobs(a, bs, ds);
      |bs| <= |now| && now[..|bs|] == bs && forall i :: |bs| <= i < |now| ==> BlobRowFrom(a, ds, now[i])
  {
    if ds != [] {
      var init, d := ds[..|ds| - 1], ds[|ds| - 1];
      RowsOfOne(a, bs, init);
      var head, now := AddBlobs(a, bs, init), AddBlobs(a, bs, ds);
      forall i | |bs| <= i < |now| ensures BlobRowFrom(a, ds, now[i]) {
        if i < |head| {
          assert now[i] == head[i] && BlobRowFrom(a, init, head[i]);
          var e :| e in init && BlobRow(a, e, head[i]);
          assert e in ds;
        } else {
          assert d in ds && BlobRow(a, d, now[i]);
        }
      }
    }
  }

  ghost predicate AllBlobRows(a: Archive, ns: seq<Node>, bs: seq<PlanBlob>) {
    forall i :: 0 <= i < |bs| ==> BlobRowOf(a, ns, bs[i])
  }

  lemma {:induction false} RowsOfAll(a: Archive, ns: seq<Node>)
    ensures AllBlobRows(a, ns, AddAllBlobs(a, [], ns))
  {
    if ns != [] {
      var init, n := ns[..|ns| - 1], ns[|ns| - 1];
      RowsOfAll(a, init);
      var head, now := AddAllBlobs(a, [], init), AddAllBlobs(a, [], ns);
      var ds := BlobDescriptors(n.manifest);
      RowsOfOne(a, head, ds);
      hide AddAllBlobs, AddBlobs, BlobDescriptors, BlobRowOf, BlobRowFrom;
      forall i | 0 <= i < |now| ensures BlobRowOf(a, ns, now[i]) {
        if i < |head| {
          assert now[i] == now[..|head|][i] && BlobRowOf(a, init, head[i]);
          RowOfMore(a, ns, head[i]);
        } else {
          RowOfLast(a, ns, now[i]);
        }
      }
    }
  }

  lemma {:induction false} RowOfMore(a: Archive, ns: seq<Node>, b: PlanBlob)
    requires ns != [] && BlobRowOf(a, ns[..|ns| - 1], b)
    ensures BlobRowOf(a, ns, b)
  {
    hide BlobDescriptorOf, BlobRow;
    var init := ns[..|ns| - 1];
    var k, d :| 0 <= k < |init| && BlobDescriptorOf(init[k].manifest, d) && BlobRow(a, d, b);
    assert BlobDescriptorOf(ns[k].manifest, d);
  }

  lemma {:induction false} RowOfLast(a: Archive, ns: seq<Node>, b: PlanBlob)
    requires ns != [] && BlobRowFrom(a, BlobDescriptors(ns[|ns| - 1].manifest), b)
    ensures BlobRowOf(a, ns, b)
  {
    hide BlobDescriptorOf, BlobRow, BlobDescriptors;
    var m := ns[|ns| - 1].manifest;
    var d :| d in BlobDescriptors(m) && BlobRow(a, d, b);
    DescriptorsByFields(m, d);
  }

  /** m is the row of n. */
  ghost predicate ManifestRow(n: Node, m: PlanManifest) {
    && m.digest == n.desc.digest && m.mediaType == n.desc.mediaType && m.body == n.manifest
    && (m.isIndex <==> !SaysImage(n.manifest)) && m.synthesized == n.synthesized
    && m.attestation == n.desc.attestation
  }

  ghost predicate ManifestRowOf(ns: seq<Node>, m: PlanManifest) {
    exists k :: 0 <= k < |ns| && ManifestRow(ns[k], m)
  }

  /** Every row of a plan says what the resolved nodes and the archive say: of a blob
      its size in the archive and the type its descriptor gives, of a manifest all
      that is known of it, of an entry its digest and the manifests in order. */
  lemma {:induction false} RowsSayWhatIsThere(a: Archive, roots: seq<Node>)
    ensures var p := PlanOf(a, roots); var ns := PostAll(roots);
      && AllBlobRows(a, ns, p.blobs)
      && (forall i :: 0 <= i < |p.manifests| ==> ManifestRowOf(ns, p.manifests[i]))
      && |p.entries| == |roots| && (forall i :: 0 <= i < |roots| ==> EntryRow(roots[i], p.entries[i]))
  {
    var p, ns := PlanOf(a, roots), PostAll(roots);
    RowsOfAll(a, ns);
    ManifestsExact(ns);
    hide AllBlobRows, AddManifests, AddAllBlobs, Post, PostAll, SaysImage, IsIndex, ManifestRow, EntryRow, EntryOf;
    forall i | 0 <= i < |p.manifests| ensures ManifestRowOf(ns, p.manifests[i]) {
      assert IsOneOf(ns, p.manifests[i]);
      var k :| 0 <= k < |ns| && p.manifests[i] == ManifestOf(ns[k]);
      RowOfManifest(ns[k]);
    }
    forall i | 0 <= i < |roots| ensures EntryRow(roots[i], p.entries[i]) { RowOfEntry(roots[i]); }
  }

  ghost predicate EntryRow(n: Node, e: Entry) {
    && e.digest == n.desc.digest && (e.isIndex <==> !SaysImage(n.manifest))
    && |e.manifests| == |Post(n)| && forall k :: 0 <= k < |Post(n)| ==> e.manifests[k] == Post(n)[k].desc.digest
  }

  lemma {:induction false} RowOfManifest(n: Node)
    ensures ManifestRow(n, ManifestOf(n))
  {
    IndexByFields(n.manifest);
    hide SaysImage, IsIndex;
  }

  lemma {:induction false} RowOfEntry(n: Node)
    ensures EntryRow(n, EntryOf(n))
  {
    IndexByFields(n.manifest);
    hide SaysImage, IsIndex, Post, DigestsOf;
  }
}
