/** What a save needs before it writes (dockerarchive/write.go): every manifest
    under the exported images is read once and recorded with the blobs it names;
    the items, in digest order, are the entries the archive gets. The source is
    any finite set of documents, cycles included. */
module SavePlan {
  import opened Wrappers
  import opened OciManifest
  import ByteOrder
  import Stager

  /** What the source answers: a body of some size, parsed when it parses. */
  datatype Doc = Doc(size: nat, parsed: Option<Manifest>)

  type Source = map<(string, string), Doc>

  datatype Item = Item(size: nat, manifest: Option<Manifest>)

  type Items = map<string, Item>

  predicate Good(src: Source, repo: string, d: string) {
    (repo, d) in src && src[(repo, d)].parsed.Some?
  }

  function Parsed(src: Source, repo: string, d: string): Manifest
    requires Good(src, repo, d)
  {
    src[(repo, d)].parsed.value
  }

  ghost predicate ChildOf(src: Source, repo: string, a: string, c: string) {
    Good(src, repo, a) &&
    var ms := Parsed(src, repo, a).manifests;
    ms.Some? && exists k :: 0 <= k < |ms.value| && ms.value[k].digest == c
  }

  ghost predicate ReachesIn(src: Source, repo: string, a: string, b: string, n: nat)
    decreases n
  {
    if n == 0 then a == b
    else exists c :: ChildOf(src, repo, a, c) && ReachesIn(src, repo, c, b, n - 1)
  }

  /** b is a, or a manifest somewhere under it. */
  ghost predicate Reaches(src: Source, repo: string, a: string, b: string) {
    exists n: nat :: ReachesIn(src, repo, a, b, n)
  }

  lemma {:induction false} ReachesSelf(src: Source, repo: string, a: string)
    ensures Reaches(src, repo, a, a)
  {
    assert ReachesIn(src, repo, a, a, 0);
  }

  lemma {:induction false} ReachesThrough(src: Source, repo: string, a: string, c: string, b: string)
    requires ChildOf(src, repo, a, c) && Reaches(src, repo, c, b)
    ensures Reaches(src, repo, a, b)
  {
    var n: nat :| ReachesIn(src, repo, c, b, n);
    assert ReachesIn(src, repo, a, b, n + 1);
  }

  predicate Resolved(items: Items, d: string) {
    d in items && items[d].manifest.Some?
  }

  /** Config, layers and children of a recorded manifest are recorded. */
  ghost predicate ClosedAt(items: Items, d: string)
    requires Resolved(items, d)
  {
    var m := items[d].manifest.value;
    && BlobsAmong(m, items.Keys)
    && (m.manifests.Some? ==>
          forall k :: 0 <= k < |m.manifests.value| ==> Resolved(items, m.manifests.value[k].digest))
  }

  ghost predicate Closed(items: Items) {
    forall d :: Resolved(items, d) ==> ClosedAt(items, d)
  }

  /** Nothing recorded is lost; at most a blob turns out to be a manifest. */
  ghost predicate Grew(was: Items, now: Items) {
    forall d :: d in was ==> d in now && (now[d] == was[d] || Added(was, now, d))
  }

  ghost predicate Added(was: Items, now: Items, d: string) {
    Resolved(now, d) && !Resolved(was, d)
  }

  /** A recorded manifest is the source's, somewhere under the root. */
  ghost predicate Faithful(src: Source, repo: string, root: string, now: Items, d: string)
    requires d in now
  {
    && Good(src, repo, d) && now[d] == Item(src[(repo, d)].size, Some(Parsed(src, repo, d)))
    && Reaches(src, repo, root, d)
  }

  /** Each new manifest is faithful and closed. */
  ghost predicate AddedManifests(src: Source, repo: string, root: string, was: Items, now: Items) {
    forall d :: Added(was, now, d) ==> Faithful(src, repo, root, now, d) && ClosedAt(now, d)
  }

  ghost predicate NamedBy(was: Items, now: Items, d: string, size: nat, namer: string) {
    Added(was, now, namer) && BlobOf(now[namer].manifest.value, d, size)
  }

  /** Each new blob is one a new manifest names, with the size it names. */
  ghost predicate AddedBlobs(was: Items, now: Items) {
    forall d :: d in now && d !in was && !Resolved(now, d) ==> exists namer :: NamedBy(was, now, d, now[d].size, namer)
  }

  ghost predicate Distinct(log: seq<string>) {
    forall i, j :: 0 <= i < j < |log| ==> log[i] != log[j]
  }

  /** What is left to resolve in a repository: the recursion ends by it. */
  ghost function Unresolved(src: Source, items: Items): set<(string, string)> {
    set k | k in src && !Resolved(items, k.1)
  }

  lemma {:induction false} FewerUnresolved(src: Source, was: Items, now: Items, repo: string, d: string)
    requires Grew(was, now) && (repo, d) in src && !Resolved(was, d) && Resolved(now, d)
    ensures |Unresolved(src, now)| < |Unresolved(src, was)|
  {
    var a, b := Unresolved(src, was), Unresolved(src, now);
    assert (repo, d) in a - b && b <= a - {(repo, d)};
    SubsetSize(b, a - {(repo, d)});
  }

  /** What one resolve leaves behind. */
  ghost predicate Outcome(src: Source, repo: string, root: string, was: Items, now: Items, log: seq<string>) {
    && Grew(was, now) && AddedManifests(src, repo, root, was, now) && AddedBlobs(was, now)
    && Distinct(log) && forall d :: d in log <==> Added(was, now, d)
  }

  /** A manifest the source does not have or that does not parse. */
  ghost predicate Broken(src: Source, repo: string, root: string, was: Items, d: string) {
    Reaches(src, repo, root, d) && !Resolved(was, d) && !Good(src, repo, d)
  }

  ghost predicate ClosedUpTo(m: Manifest, now: Items, k: nat) {
    && k <= |Children(m)|
    && BlobsAmong(m, now.Keys)
    && (forall i :: 0 <= i < k ==> Resolved(now, Children(m)[i].digest))
  }

  lemma {:induction false} UpToNext(m: Manifest, mid: Items, now: Items, k: nat)
    requires ClosedUpTo(m, mid, k) && Grew(mid, now) && k < |Children(m)| && Resolved(now, Children(m)[k].digest)
    ensures ClosedUpTo(m, now, k + 1)
  {
    hide BlobDescriptors, Children;
  }

  lemma {:induction false} FaithfulAbove(src: Source, repo: string, root: string, c: string, now: Items, d: string)
    requires d in now && ChildOf(src, repo, root, c) && Faithful(src, repo, c, now, d)
    ensures Faithful(src, repo, root, now, d)
  {
    hide ChildOf, Reaches;
    ReachesThrough(src, repo, root, c, d);
  }

  lemma {:induction false} FaithfulLater(src: Source, repo: string, root: string, mid: Items, now: Items, d: string)
    requires d in mid && d in now && now[d] == mid[d] && Faithful(src, repo, root, mid, d)
    ensures Faithful(src, repo, root, now, d)
  {
  }

  /** A resolve of `root` that has gone through its first k children. */
  ghost predicate Underway(src: Source, repo: string, root: string, was: Items, now: Items, log: seq<string>, k: nat)
  {
    && Grew(was, now) && Added(was, now, root)
    && (forall d :: Added(was, now, d) ==> Faithful(src, repo, root, now, d) && (d != root ==> ClosedAt(now, d)))
    && Good(src, repo, root) && ClosedUpTo(Parsed(src, repo, root), now, k)
    && AddedBlobs(was, now)
    && Distinct(log) && forall d :: d in log <==> Added(was, now, d)
  }

  lemma {:induction false} BlobsGrow(was: Items, mid: Items, now: Items)
    requires Grew(was, mid) && Grew(mid, now) && AddedBlobs(was, mid) && AddedBlobs(mid, now)
    ensures AddedBlobs(was, now)
  {
    hide BlobOf;
    forall d | d in now && d !in was && !Resolved(now, d) ensures exists n :: NamedBy(was, now, d, now[d].size, n) {
      if d in mid {
        assert !Resolved(mid, d);
        var n :| NamedBy(was, mid, d, mid[d].size, n);
        assert NamedBy(was, now, d, mid[d].size, n);
      } else {
        var n :| NamedBy(mid, now, d, now[d].size, n);
        assert NamedBy(was, now, d, now[d].size, n);
      }
    }
  }

  lemma {:induction false} Begin(src: Source, repo: string, root: string, was: Items, now: Items)
    requires Good(src, repo, root) && !Resolved(was, root) && Resolved(now, root)
    requires now[root] == Item(src[(repo, root)].size, Some(Parsed(src, repo, root)))
    requires forall d :: d in was && d != root ==> d in now && now[d] == was[d]
    requires forall d :: d in now && d !in was && d != root ==>
      now[d].manifest.None? && BlobOf(Parsed(src, repo, root), d, now[d].size)
    requires BlobsAmong(Parsed(src, repo, root), now.Keys)
    ensures Underway(src, repo, root, was, now, [root], 0)
  {
    ReachesSelf(src, repo, root);
    hide BlobOf, Reaches, ClosedAt, BlobDescriptors;
    assert AddedBlobs(was, now) by {
      forall d | d in now && d !in was && !Resolved(now, d) ensures exists n :: NamedBy(was, now, d, now[d].size, n) {
        assert NamedBy(was, now, d, now[d].size, root);
      }
    }
  }

  lemma {:induction false} GrewTransitive(was: Items, mid: Items, now: Items)
    requires Grew(was, mid) && Grew(mid, now)
    ensures Grew(was, now)
    ensures forall d :: Added(was, now, d) <==> Added(was, mid, d) || Added(mid, now, d)
    ensures forall d :: !(Added(was, mid, d) && Added(mid, now, d))
    ensures forall d :: Added(was, mid, d) ==> now[d] == mid[d]
  {
  }

  lemma {:induction false} StaysClosed(mid: Items, now: Items, d: string)
    requires Grew(mid, now) && Resolved(mid, d) && ClosedAt(mid, d)
    ensures Resolved(now, d) && ClosedAt(now, d)
  {
    hide BlobDescriptors, Children;
  }

  lemma {:induction false} LogsJoin(was: Items, mid: Items, now: Items, log: seq<string>, more: seq<string>)
    requires Grew(was, mid) && Grew(mid, now) && Distinct(log) && Distinct(more)
    requires (forall d :: d in log <==> Added(was, mid, d)) && (forall d :: d in more <==> Added(mid, now, d))
    ensures Distinct(log + more) && forall d :: d in log + more <==> Added(was, now, d)
  {
    GrewTransitive(was, mid, now);
    hide Added, Grew;
    forall i, j | 0 <= i < j < |log + more| ensures (log + more)[i] != (log + more)[j] {
      if i < |log| <= j { assert log[i] in log && more[j - |log|] in more; }
    }
  }

  lemma {:induction false} Onward(src: Source, repo: string, root: string, was: Items, mid: Items, now: Items,
               log: seq<string>, more: seq<string>, k: nat)
    requires Underway(src, repo, root, was, mid, log, k) && k < |Children(Parsed(src, repo, root))|
    requires var c := Children(Parsed(src, repo, root))[k].digest;
      Outcome(src, repo, c, mid, now, more) && Resolved(now, c)
    ensures Underway(src, repo, root, was, now, log + more, k + 1)
  {
    var m := Parsed(src, repo, root);
    var c := Children(m)[k].digest;
    IsChild(src, repo, root, k);
    hide ChildOf, Faithful, ClosedAt, ClosedUpTo, BlobDescriptors, Children;
    GrewTransitive(was, mid, now);
    UpToNext(m, mid, now, k);
    BlobsGrow(was, mid, now);
    LogsJoin(was, mid, now, log, more);
    hide AddedBlobs, Distinct, Grew;
    forall d | Added(was, now, d)
      ensures Faithful(src, repo, root, now, d) && (d != root ==> ClosedAt(now, d))
    {
      if Added(was, mid, d) {
        FaithfulLater(src, repo, root, mid, now, d);
        if d != root { StaysClosed(mid, now, d); }
      } else {
        FaithfulAbove(src, repo, root, c, now, d);
      }
    }
  }

  lemma {:induction false} Finish(src: Source, repo: string, root: string, was: Items, now: Items, log: seq<string>)
    requires Good(src, repo, root)
    requires Underway(src, repo, root, was, now, log, |Children(Parsed(src, repo, root))|)
    ensures Outcome(src, repo, root, was, now, log)
  {
    hide Reaches, BlobOf, BlobDescriptors, Children, AddedBlobs, Distinct;
  }

  /** Whether a manifest is recorded, and whether it can be read. */
  lemma {:induction false} Recorded(src: Source, repo: string, d: string, items: Items)
    ensures Resolved(items, d) <==> d in items && items[d].manifest.Some?
    ensures Good(src, repo, d) <==> (repo, d) in src && src[(repo, d)].parsed.Some?
    ensures !Resolved(items, d) && !Good(src, repo, d) ==> Broken(src, repo, d, items, d)
  {
    ReachesSelf(src, repo, d);
  }

  lemma {:induction false} NothingToDo(src: Source, repo: string, root: string, items: Items)
    ensures Outcome(src, repo, root, items, items, [])
  {
  }

  lemma {:induction false} BrokenAbove(src: Source, repo: string, root: string, was: Items, mid: Items, c: string,
      x: string)
    requires ChildOf(src, repo, root, c) && Grew(was, mid) && Broken(src, repo, c, mid, x)
    ensures Broken(src, repo, root, was, x)
  {
    hide ChildOf, Reaches;
    ReachesThrough(src, repo, root, c, x);
  }

  class Plan {
    const src: Source
    var items: Items
    ghost var asked: seq<string>   // the manifests read from the source, in order

    constructor (src: Source)
      ensures this.src == src && items == map[] && asked == []
    {
      this.src := src;
      items := map[];
      asked := [];
    }

    /** The blobs of a manifest are recorded unless their digest already is. */
    method RecordBlobs(m: Manifest)
      modifies this`items
      ensures forall d :: d in old(items) ==> d in items && items[d] == old(items)[d]
      ensures forall d :: d in items && d !in old(items) ==> items[d].manifest.None? && BlobOf(m, d, items[d].size)
      ensures BlobsAmong(m, items.Keys)
    {
      var blobs := BlobDescriptors(m);
      BlobsByFields(m, {});
      hide BlobDescriptors, BlobsAmong, BlobOf;
      for k := 0 to |blobs|
        invariant forall d :: d in old(items) ==> d in items && items[d] == old(items)[d]
        invariant forall d :: d in items && d !in old(items) ==> items[d].manifest.None? && BlobOf(m, d, items[d].size)
        invariant forall i :: 0 <= i < k ==> blobs[i].digest in items
      {
        if blobs[k].digest !in items {
          items := items[blobs[k].digest := Item(blobs[k].size, None)];
        }
      }
      BlobsByFields(m, items.Keys);
    }

    /** A manifest just read is recorded with its blobs. */
    method Record(repo: string, d: string) returns (m: Manifest)
      requires Good(src, repo, d) && !Resolved(items, d)
      modifies this`items
      ensures m == Parsed(src, repo, d) && Underway(src, repo, d, old(items), items, [d], 0)
    {
      hide ChildOf, Reaches, Underway, Children;
      ghost var was := items;
      m := src[(repo, d)].parsed.value;
      items := items[d := Item(src[(repo, d)].size, Some(m))];
      RecordBlobs(m);
      Begin(src, repo, d, was, items);
    }

    /** resolve: reads a manifest unless it is recorded, then everything under it. */
    method Resolve(repo: string, d: string) returns (r: Option<Manifest>)
      modifies this`items, this`asked
      ensures old(asked) <= asked
      ensures r.Some? ==> Resolved(items, d) && r.value == items[d].manifest.value
      ensures r.Some? ==> Outcome(src, repo, d, old(items), items, asked[|old(asked)|..])
      ensures r.None? ==> exists x :: Broken(src, repo, d, old(items), x)
      ensures Resolved(old(items), d) ==> r.Some? && items == old(items) && asked == old(asked)
      decreases |Unresolved(src, items)|
    {
      hide *;
      ghost var was, log := items, asked;
      Recorded(src, repo, d, was);
      if d in items && items[d].manifest.Some? {
        NothingToDo(src, repo, d, items);
        assert asked[|log|..] == [];
        return items[d].manifest;
      }
      asked := asked + [d];
      if (repo, d) !in src || src[(repo, d)].parsed.None? {
        return None;
      }
      var m := Record(repo, d);
      assert asked[|log|..] == [d];
      for k := 0 to |Children(m)|
        invariant Good(src, repo, d) && m == Parsed(src, repo, d)
        invariant log <= asked && Underway(src, repo, d, was, items, asked[|log|..], k)
      {
        ghost var mid, midlog := items, asked;
        ghost var child := Children(m)[k].digest;
        UnderwayFacts(src, repo, d, was, mid, midlog[|log|..], k);
        FewerUnresolved(src, was, mid, repo, d);
        IsChild(src, repo, d, k);
        var c := Resolve(repo, Children(m)[k].digest);
        if c.None? {
          ghost var x :| Broken(src, repo, child, mid, x);
          BrokenAbove(src, repo, d, was, mid, child, x);
          return None;
        }
        Onward(src, repo, d, was, mid, items, midlog[|log|..], asked[|midlog|..], k);
        assert asked[|log|..] == midlog[|log|..] + asked[|midlog|..];
      }
      UnderwayFacts(src, repo, d, was, items, asked[|log|..], |Children(m)|);
      Finish(src, repo, d, was, items, asked[|log|..]);
      return Some(m);
    }

    /** The manifest.json entry's manifest: the exported one, or for an index its best
        child that is an image. Its resolves find everything recorded: nothing is read
        and nothing fails. */
    method PickLegacy(repo: string, d: string, platform: Option<Platform>) returns (r: Option<string>)
      requires Closed(items) && Resolved(items, d)
      modifies this`items, this`asked
      ensures items == old(items) && asked == old(asked)
      ensures var m := items[d].manifest.value;
        if SaysImage(m) then r == (if m.config.Some? then Some(d) else None)
        else BestChild(items, Children(m), platform, r)
    {
      var m := items[d].manifest.value;
      IndexByFields(m);
      hide *;
      if !IsIndex(m) {
        return if m.config.Some? then Some(d) else None;
      }
      var candidates, idx := LegacyCandidates(Children(m), platform);
      CandidatesResolved(items, d, platform, candidates, idx);
      for k := 0 to |candidates|
        invariant items == old(items) && asked == old(asked)
        invariant forall j :: 0 <= j < k ==> !ImageIn(items, candidates[j].digest)
      {
        var c := candidates[k].digest;
        var cm := Resolve(repo, c);
        Images(items, c);
        if !IsIndex(cm.value) && cm.value.config.Some? {
          FirstIsBest(items, Children(m), platform, candidates, idx, k);
          return Some(c);
        }
      }
      NoneIsImage(items, Children(m), platform, candidates, idx);
      return None;
    }

    /** Write's loop over the exported images. */
    method AddAll(images: seq<Export>) returns (ok: bool)
      requires items == map[] && asked == []
      modifies this`items, this`asked
      ensures ok ==> Closed(items) && Distinct(asked) && forall d :: d in asked <==> Resolved(items, d)
      ensures ok ==> forall k :: 0 <= k < |images| ==> Resolved(items, images[k].digest)
      ensures ok ==> forall x :: x in items ==> NeededBySome(src, images, x)
      ensures !ok ==> exists k, x :: 0 <= k < |images| && Missing(src, images[k], x)
    {
      hide *;
      Nothing(src);
      for k := 0 to |images|
        invariant Complete(src, images[..k], items, asked)
      {
        ghost var was, log := items, asked;
        var m := Resolve(images[k].repo, images[k].digest);
        if m.None? {
          ghost var x :| Broken(src, images[k].repo, images[k].digest, was, x);
          StillMissing(src, images[k], was, x);
          return false;
        }
        assert asked == log + asked[|log|..];
        CompleteNext(src, images, k, was, items, log, asked[|log|..]);
      }
      assert images[..|images|] == images;
      CompleteFacts(src, images, items, asked);
      return true;
    }

    /** The archive's entries in digest order, with the totals the progress
        starts from and the blobs that are rebuilt. */
    method Entries() returns (entries: seq<Stager.Entry>, total: nat, blobs: seq<string>)
      ensures ByteOrder.Increasing(Digests(entries)) && forall d :: d in Digests(entries) <==> d in items
      ensures forall k :: 0 <= k < |entries| ==> IsEntry(items, entries[k])
      ensures total == Stager.Sizes(entries) && blobs == Digests(Stager.Blobs(entries))
    {
      var digests := ByteOrder.SortedNames(items.Keys);
      entries, total, blobs := [], 0, [];
      for k := 0 to |digests|
        invariant Digests(entries) == digests[..k]
        invariant forall i :: 0 <= i < |entries| ==> IsEntry(items, entries[i])
        invariant total == Stager.Sizes(entries) && blobs == Digests(Stager.Blobs(entries))
      {
        var it := items[digests[k]];
        var e := Stager.Entry(digests[k], it.size, it.manifest.None?);
        DigestsAppend(entries, e);
        total := total + it.size;
        if it.manifest.None? { blobs := blobs + [digests[k]]; }
        entries := entries + [e];
      }
      assert digests[..|digests|] == digests;
    }
  }

  datatype Export = Export(repo: string, digest: string)

  predicate IsEntry(items: Items, e: Stager.Entry) {
    e.digest in items && e.size == items[e.digest].size && (e.blob <==> items[e.digest].manifest.None?)
  }

  function Digests(entries: seq<Stager.Entry>): seq<string> {
    seq(|entries|, k requires 0 <= k < |entries| => entries[k].digest)
  }

  lemma {:induction false} DigestsAppend(entries: seq<Stager.Entry>, e: Stager.Entry)
    ensures Digests(entries + [e]) == Digests(entries) + [e.digest]
    ensures Stager.Sizes(entries + [e]) == Stager.Sizes(entries) + e.size
    ensures Digests(Stager.Blobs(entries + [e])) == Digests(Stager.Blobs(entries)) + if e.blob then [e.digest] else []
  {
    assert (entries + [e])[..|entries|] == entries;
  }

  /** A manifest under the image, or a blob one of those names. */
  ghost predicate Needed(src: Source, image: Export, x: string) {
    exists y :: Reaches(src, image.repo, image.digest, y) && Good(src, image.repo, y)
      && (x == y || exists size :: BlobOf(Parsed(src, image.repo, y), x, size))
  }

  ghost predicate NeededBySome(src: Source, images: seq<Export>, x: string) {
    exists k :: 0 <= k < |images| && Needed(src, images[k], x)
  }

  lemma {:induction false} NeededByMore(src: Source, images: seq<Export>, k: nat, x: string)
    requires k < |images| && (NeededBySome(src, images[..k], x) || Needed(src, images[k], x))
    ensures NeededBySome(src, images[..k + 1], x)
  {
    hide Needed;
    var some := images[..k + 1];
    if NeededBySome(src, images[..k], x) {
      var i :| 0 <= i < k && Needed(src, images[..k][i], x);
      assert Needed(src, some[i], x);
    } else {
      assert Needed(src, some[k], x);
    }
  }

  ghost predicate Missing(src: Source, image: Export, x: string) {
    Reaches(src, image.repo, image.digest, x) && !Good(src, image.repo, x)
  }

  lemma {:induction false} StillMissing(src: Source, image: Export, was: Items, x: string)
    requires Broken(src, image.repo, image.digest, was, x)
    ensures Missing(src, image, x)
  {
  }

  ghost predicate AllResolved(images: seq<Export>, items: Items) {
    forall k :: 0 <= k < |images| ==> Resolved(items, images[k].digest)
  }

  /** What is recorded once the given images are resolved. */
  ghost predicate Complete(src: Source, images: seq<Export>, items: Items, asked: seq<string>) {
    && Closed(items) && Distinct(asked) && (forall d :: d in asked <==> Resolved(items, d))
    && AllResolved(images, items)
    && (forall x :: x in items ==> NeededBySome(src, images, x))
  }

  lemma {:induction false} CompleteFacts(src: Source, images: seq<Export>, items: Items, asked: seq<string>)
    requires Complete(src, images, items, asked)
    ensures Closed(items) && Distinct(asked) && (forall d :: d in asked <==> Resolved(items, d))
    ensures forall k :: 0 <= k < |images| ==> Resolved(items, images[k].digest)
    ensures forall x :: x in items ==> NeededBySome(src, images, x)
  {
  }

  lemma {:induction false} Nothing(src: Source)
    ensures Complete(src, [], map[], [])
  {
  }

  lemma {:induction false} NewIsNeeded(src: Source, image: Export, was: Items, now: Items, log: seq<string>, x: string)
    requires Outcome(src, image.repo, image.digest, was, now, log) && x in now && x !in was
    ensures Needed(src, image, x)
  {
    hide BlobOf, Reaches, ClosedAt, Distinct;
    if Resolved(now, x) {
      assert Added(was, now, x);
    } else {
      var n :| NamedBy(was, now, x, now[x].size, n);
      assert Faithful(src, image.repo, image.digest, now, n);
    }
  }

  /** A resolve keeps a closed plan closed. */
  lemma {:induction false} OutcomeClosed(src: Source, repo: string, root: string, was: Items, now: Items,
      log: seq<string>)
    requires Closed(was) && Outcome(src, repo, root, was, now, log)
    ensures Closed(now)
  {
    hide ClosedAt, Faithful, AddedBlobs, Distinct;
    forall d | Resolved(now, d) ensures ClosedAt(now, d) {
      if Resolved(was, d) { StaysClosed(was, now, d); } else { assert Added(was, now, d); }
    }
  }

  lemma {:induction false} CompleteNext(src: Source, images: seq<Export>, k: nat, was: Items, now: Items,
      log: seq<string>, more: seq<string>)
    requires k < |images| && Complete(src, images[..k], was, log) && Resolved(now, images[k].digest)
    requires Outcome(src, images[k].repo, images[k].digest, was, now, more)
    ensures Complete(src, images[..k + 1], now, log + more)
  {
    var image, some := images[k], images[..k + 1];
    hide Needed, NeededBySome, AllResolved, Closed, Distinct, Outcome, Added, Resolved;
    OutcomeClosed(src, image.repo, image.digest, was, now, more);
    AskedNext(src, image, was, now, log, more);
    forall x | x in now ensures NeededBySome(src, some, x) {
      if x !in was { NewIsNeeded(src, image, was, now, more, x); }
      NeededByMore(src, images, k, x);
    }
    AllResolvedNext(src, images, k, was, now, more);
  }

  lemma {:induction false} AllResolvedNext(src: Source, images: seq<Export>, k: nat, was: Items, now: Items,
      more: seq<string>)
    requires k < |images| && AllResolved(images[..k], was) && Resolved(now, images[k].digest)
    requires Outcome(src, images[k].repo, images[k].digest, was, now, more)
    ensures AllResolved(images[..k + 1], now)
  {
    hide Outcome, Resolved;
    var some := images[..k + 1];
    forall i | 0 <= i < |some| ensures Resolved(now, some[i].digest) {
      if i < k {
        assert some[i] == images[..k][i];
        StaysResolved(src, images[k], was, now, more, some[i].digest);
      }
    }
  }

  lemma {:induction false} AskedNext(src: Source, image: Export, was: Items, now: Items, log: seq<string>,
      more: seq<string>)
    requires Outcome(src, image.repo, image.digest, was, now, more)
    requires Distinct(log) && forall d :: d in log <==> Resolved(was, d)
    ensures Distinct(log + more) && forall d :: d in log + more <==> Resolved(now, d)
  {
    hide AddedManifests, AddedBlobs, Distinct;
    EmptyStart(was, log);
    LogsJoin(map[], was, now, log, more);
    assert forall d :: Added(map[], now, d) <==> Resolved(now, d);
  }

  lemma {:induction false} StaysResolved(src: Source, image: Export, was: Items, now: Items, more: seq<string>,
      d: string)
    requires Outcome(src, image.repo, image.digest, was, now, more) && Resolved(was, d)
    ensures Resolved(now, d)
  {
    hide AddedManifests, AddedBlobs, Distinct;
  }

  lemma {:induction false} EmptyStart(was: Items, log: seq<string>)
    requires forall d :: d in log <==> Resolved(was, d)
    ensures Grew(map[], was) && forall d :: d in log <==> Added(map[], was, d)
  {
  }

  lemma {:induction false} CoversIn(src: Source, repo: string, now: Items, a: string, b: string, n: nat)
    requires forall d :: Resolved(now, d) ==>
      ClosedAt(now, d) && Good(src, repo, d) && now[d].manifest == Some(Parsed(src, repo, d))
    requires Resolved(now, a) && ReachesIn(src, repo, a, b, n)
    ensures Resolved(now, b)
    decreases n
  {
    if n > 0 {
      var c :| ChildOf(src, repo, a, c) && ReachesIn(src, repo, c, b, n - 1);
      CoversIn(src, repo, now, c, b, n - 1);
    }
  }

  /** A resolve that succeeds on a fresh plan records exactly the manifests under
      the root, all of which the source has: with Resolve's failure clause, it
      succeeds if and only if none is broken. */
  lemma {:induction false} ResolvedExactly(src: Source, repo: string, root: string, now: Items, log: seq<string>,
      x: string)
    requires Outcome(src, repo, root, map[], now, log) && Resolved(now, root)
    ensures Resolved(now, x) <==> Reaches(src, repo, root, x)
    ensures Resolved(now, x) ==> Good(src, repo, x)
  {
    assert forall d :: Resolved(now, d) ==> Added(map[], now, d);
    assert Resolved(now, x) ==> Added(map[], now, x);
    if Reaches(src, repo, root, x) {
      var n: nat :| ReachesIn(src, repo, root, x, n);
      CoversIn(src, repo, now, root, x, n);
    }
  }

  // ---- The manifest.json entry --------------------------------------------------

  /** The child is for the platform asked for: same os and architecture, and the same
      variant if one is asked for. */
  predicate Fits(d: Descriptor, platform: Option<Platform>) {
    platform.Some? && d.platform.Some? && Matches(platform.value, d.platform.value)
  }

  lemma {:induction false} FitsByFields(d: Descriptor, platform: Option<Platform>)
    ensures Fits(d, platform) <==>
      && platform.Some? && d.platform.Some?
      && d.platform.value.(variant := "") == platform.value.(variant := "")
      && platform.value.variant in {"", d.platform.value.variant}
  {
  }

  /** Child i comes before child j: it fits the platform and j does not, or it is
      listed earlier. */
  ghost predicate Better(kids: seq<Descriptor>, platform: Option<Platform>, i: nat, j: nat)
    requires i < |kids| && j < |kids|
  {
    if Fits(kids[i], platform) == Fits(kids[j], platform) then i < j else Fits(kids[i], platform)
  }

  /** cs are the children at idx: all but the attestations, the better ones first. */
  ghost predicate Ranking(kids: seq<Descriptor>, platform: Option<Platform>, cs: seq<Descriptor>, idx: seq<nat>) {
    && |idx| == |cs|
    && (forall k :: 0 <= k < |idx| ==> idx[k] < |kids| && cs[k] == kids[idx[k]] && !cs[k].attestation)
    && (forall j, k :: 0 <= j < k < |idx| ==> Better(kids, platform, idx[j], idx[k]))
    && (forall i :: 0 <= i < |kids| && !kids[i].attestation ==> i in idx)
  }

  /** Part of a ranking: the children before n that fit, or those that do not. */
  ghost predicate Part(kids: seq<Descriptor>, platform: Option<Platform>, n: nat, fits: bool, cs: seq<Descriptor>,
      idx: seq<nat>)
  {
    && n <= |kids| && |idx| == |cs|
    && (forall k :: 0 <= k < |idx| ==>
          idx[k] < n && cs[k] == kids[idx[k]] && !cs[k].attestation && Fits(cs[k], platform) == fits)
    && (forall j, k :: 0 <= j < k < |idx| ==> idx[j] < idx[k])
    && (forall i :: 0 <= i < n && !kids[i].attestation && Fits(kids[i], platform) == fits ==> i in idx)
  }

  lemma {:induction false} PartNext(kids: seq<Descriptor>, platform: Option<Platform>, n: nat, fits: bool,
      cs: seq<Descriptor>, idx: seq<nat>)
    requires Part(kids, platform, n, fits, cs, idx) && n < |kids|
    ensures
      if !kids[n].attestation && Fits(kids[n], platform) == fits
      then Part(kids, platform, n + 1, fits, cs + [kids[n]], idx + [n]) else Part(kids, platform, n + 1, fits, cs, idx)
  {
    hide Fits;
  }

  lemma {:induction false} PartsJoin(kids: seq<Descriptor>, platform: Option<Platform>,
      cs: seq<Descriptor>, idx: seq<nat>, cs': seq<Descriptor>, idx': seq<nat>)
    requires Part(kids, platform, |kids|, true, cs, idx) && Part(kids, platform, |kids|, false, cs', idx')
    ensures Ranking(kids, platform, cs + cs', idx + idx')
  {
    hide Fits, Part, Better;
    var all, list := idx + idx', cs + cs';
    PartFacts(kids, platform, true, cs, idx);
    PartFacts(kids, platform, false, cs', idx');
    forall k | 0 <= k < |all| ensures all[k] < |kids| && list[k] == kids[all[k]] && !list[k].attestation {
      if k >= |idx| { assert all[k] == idx'[k - |idx|] && list[k] == cs'[k - |idx|]; }
    }
    forall j, k | 0 <= j < k < |all| ensures Better(kids, platform, all[j], all[k]) {
      if j >= |idx| { assert all[j] == idx'[j - |idx|] && all[k] == idx'[k - |idx|]; }
      else if k >= |idx| {
        assert all[j] == idx[j] && all[k] == idx'[k - |idx|];
        FitsFirst(kids, platform, idx[j], idx'[k - |idx|]);
      }
    }
    forall i | 0 <= i < |kids| && !kids[i].attestation ensures i in all {
      if Fits(kids[i], platform) { assert i in idx; } else { assert i in idx'; }
    }
  }

  lemma {:induction false} FitsFirst(kids: seq<Descriptor>, platform: Option<Platform>, i: nat, j: nat)
    requires i < |kids| && j < |kids| && Fits(kids[i], platform) && !Fits(kids[j], platform)
    ensures Better(kids, platform, i, j)
  {
    hide Fits;
  }

  lemma {:induction false} PartFacts(kids: seq<Descriptor>, platform: Option<Platform>, fits: bool,
      cs: seq<Descriptor>, idx: seq<nat>)
    requires Part(kids, platform, |kids|, fits, cs, idx)
    ensures |idx| == |cs|
    ensures forall k :: 0 <= k < |idx| ==>
      idx[k] < |kids| && cs[k] == kids[idx[k]] && !cs[k].attestation && Fits(kids[idx[k]], platform) == fits
    ensures forall j, k :: 0 <= j < k < |idx| ==> Better(kids, platform, idx[j], idx[k])
    ensures forall i :: 0 <= i < |kids| && !kids[i].attestation && Fits(kids[i], platform) == fits ==> i in idx
  {
    hide Fits;
  }

  /** legacyCandidates: the children that fit the platform, then the others. */
  method LegacyCandidates(kids: seq<Descriptor>, platform: Option<Platform>)
    returns (cs: seq<Descriptor>, ghost idx: seq<nat>)
    ensures Ranking(kids, platform, cs, idx)
  {
    var matching: seq<Descriptor>, rest: seq<Descriptor> := [], [];
    ghost var mi: seq<nat>, ri: seq<nat> := [], [];
    for k := 0 to |kids|
      invariant Part(kids, platform, k, true, matching, mi) && Part(kids, platform, k, false, rest, ri)
    {
      PartNext(kids, platform, k, true, matching, mi);
      PartNext(kids, platform, k, false, rest, ri);
      hide Part;
      if kids[k].attestation { continue; }
      if Fits(kids[k], platform) {
        matching, mi := matching + [kids[k]], mi + [k];
      } else {
        rest, ri := rest + [kids[k]], ri + [k];
      }
    }
    PartsJoin(kids, platform, matching, mi, rest, ri);
    return matching + rest, mi + ri;
  }

  /** d is recorded as an image manifest with a config. */
  ghost predicate ImageIn(items: Items, d: string) {
    Resolved(items, d) && SaysImage(items[d].manifest.value) && items[d].manifest.value.config.Some?
  }

  lemma {:induction false} Images(items: Items, d: string)
    requires Resolved(items, d)
    ensures ImageIn(items, d) <==> !IsIndex(items[d].manifest.value) && items[d].manifest.value.config.Some?
  {
    IndexByFields(items[d].manifest.value);
    hide SaysImage, IsIndex;
  }

  ghost predicate Eligible(items: Items, kid: Descriptor) {
    !kid.attestation && ImageIn(items, kid.digest)
  }

  /** r is the child no other eligible one comes before, and None if none is. */
  ghost predicate BestChild(items: Items, kids: seq<Descriptor>, platform: Option<Platform>, r: Option<string>) {
    match r
    case None => forall i :: 0 <= i < |kids| ==> !Eligible(items, kids[i])
    case Some(d) =>
      exists j :: 0 <= j < |kids| && Eligible(items, kids[j]) && kids[j].digest == d &&
        forall i :: 0 <= i < |kids| && i != j && Eligible(items, kids[i]) ==> Better(kids, platform, j, i)
  }

  lemma {:induction false} FirstIsBest(items: Items, kids: seq<Descriptor>, platform: Option<Platform>,
      cs: seq<Descriptor>, idx: seq<nat>, k: nat)
    requires Ranking(kids, platform, cs, idx) && k < |cs| && ImageIn(items, cs[k].digest)
    requires forall j :: 0 <= j < k ==> !ImageIn(items, cs[j].digest)
    ensures BestChild(items, kids, platform, Some(cs[k].digest))
  {
    hide ImageIn, Better;
    forall i | 0 <= i < |kids| && i != idx[k] && Eligible(items, kids[i]) ensures Better(kids, platform, idx[k], i) {
      assert i in idx;
    }
  }

  lemma {:induction false} NoneIsImage(items: Items, kids: seq<Descriptor>, platform: Option<Platform>,
      cs: seq<Descriptor>, idx: seq<nat>)
    requires Ranking(kids, platform, cs, idx) && forall j :: 0 <= j < |cs| ==> !ImageIn(items, cs[j].digest)
    ensures BestChild(items, kids, platform, None)
  {
    hide ImageIn, Better;
    forall i | 0 <= i < |kids| ensures !Eligible(items, kids[i]) {
      if !kids[i].attestation { assert i in idx; }
    }
  }

  lemma {:induction false} CandidatesResolved(items: Items, d: string, platform: Option<Platform>,
      cs: seq<Descriptor>, idx: seq<nat>)
    requires Closed(items) && Resolved(items, d) && Ranking(Children(items[d].manifest.value), platform, cs, idx)
    ensures forall k :: 0 <= k < |cs| ==> Resolved(items, cs[k].digest)
  {
    hide Better, BlobsAmong;
    assert ClosedAt(items, d);
    forall k | 0 <= k < |cs| ensures Resolved(items, cs[k].digest) {
      assert cs[k] == Children(items[d].manifest.value)[idx[k]];
    }
  }

  lemma {:induction false} IsChild(src: Source, repo: string, d: string, k: nat)
    requires Good(src, repo, d) && k < |Children(Parsed(src, repo, d))|
    ensures ChildOf(src, repo, d, Children(Parsed(src, repo, d))[k].digest)
  {
  }

  lemma {:induction false} UnderwayFacts(src: Source, repo: string, root: string, was: Items, now: Items,
      log: seq<string>, k: nat)
    requires Underway(src, repo, root, was, now, log, k)
    ensures Grew(was, now) && (repo, root) in src && !Resolved(was, root) && Resolved(now, root)
    ensures Good(src, repo, root) && root in now && now[root].manifest == Some(Parsed(src, repo, root))
  {
    hide Reaches, BlobOf, BlobDescriptors, Children, AddedBlobs, Distinct, ClosedAt;
  }
}
