/** When publishing an archive keeps its order, told from the archive alone: an
    index that has all its children, one of which is an index that lacks a child,
    is what breaks it (dockerarchive/plan.go, importer/importer.go). */
module ArchiveOrder {
  import opened Wrappers
  import opened OciManifest
  import opened ImportPlan
  import opened Publish

  /** Index y has all its children, and its child c is an index that lacks one. */
  ghost predicate GapBelow(a: Archive, y: string, c: string) {
    IndexIn(a, y) && !Gapped(a, y) && HeldChild(a, y, c) && Gapped(a, c)
  }

  ghost predicate GapUnder(a: Archive, x: string) {
    exists y, c :: Reaches(a, x, y) && GapBelow(a, y, c)
  }

  /** Such a pair is reached from some entry of index.json. */
  ghost predicate HiddenGap(a: Archive) {
    exists k :: 0 <= k < |a.index| && GapUnder(a, a.index[k].digest)
  }

  ghost predicate HasStale(ns: seq<Node>) {
    exists i, j: nat :: 0 <= i < |ns| && StaleChild(ns[i], j)
  }

  lemma {:induction false} StaleExactly(ns: seq<Node>)
    ensures HasStale(ns) <==> !NoStaleChild(ns)
  {
    if HasStale(ns) {
      var i, j: nat :| 0 <= i < |ns| && StaleChild(ns[i], j);
      assert !NonePruned(ns[i].children);
    }
    if !NoStaleChild(ns) {
      var i :| 0 <= i < |ns| && IsIndex(ns[i].manifest) && !ns[i].synthesized && !NonePruned(ns[i].children);
      var j :| 0 <= j < |ns[i].children| && ns[i].children[j].synthesized;
      assert StaleChild(ns[i], j);
    }
  }

  lemma {:induction false} HasStaleFrom(ns: seq<Node>, n: Node, j: nat)
    requires n in ns && StaleChild(n, j)
    ensures HasStale(ns)
  {
    var i :| 0 <= i < |ns| && ns[i] == n;
    assert StaleChild(ns[i], j);
  }

  /** Every node under a resolved one is what a descriptor reached from it resolves to. */
  lemma {:induction false} PostReached(a: Archive, rank: map<string, nat>, render: Render, d: Descriptor, n: Node,
      x: Node)
    returns (e: Descriptor)
    requires Ranked(a, rank) && Resolves(a, rank, render, d, n) && x in Post(n)
    ensures Reaches(a, d.digest, e.digest) && Resolves(a, rank, render, e, x)
    decreases n
  {
    hide Resolve, Ranked, Reaches, HeldChild;
    if x == n {
      ReachesSelf(a, d.digest);
      e := d;
    } else {
      var j, k := PostFrom(n.children, x);
      var c := ResolvesChild(a, rank, render, d, n, j);
      e := PostReached(a, rank, render, c, n.children[j], x);
      ReachesThrough(a, d.digest, c.digest, e.digest);
    }
  }

  /** A stale child among the nodes is a gap in the archive. */
  lemma {:induction false} StaleIsGap(a: Archive, rank: map<string, nat>, render: Render, d: Descriptor, n: Node)
    requires Ranked(a, rank) && Resolves(a, rank, render, d, n) && HasStale(Post(n))
    ensures GapUnder(a, d.digest)
  {
    var i, j: nat :| 0 <= i < |Post(n)| && StaleChild(Post(n)[i], j);
    var x := Post(n)[i];
    var e := PostReached(a, rank, render, d, n, x);
    ResolvesLocal(a, rank, render, e, x);
    hide Resolve, Ranked, Post, Reaches;
    RewrittenExactly(a, rank, render, e, x);
    var c := ResolvesChild(a, rank, render, e, x, j);
    RewrittenExactly(a, rank, render, c, x.children[j]);
    assert GapBelow(a, e.digest, c.digest);
  }

  /** And a gap that is reached is a stale child. */
  lemma {:induction false} GapIsStale(a: Archive, rank: map<string, nat>, render: Render, d: Descriptor, n: Node,
                                      y: string, c: string, steps: nat)
    requires Ranked(a, rank) && Resolves(a, rank, render, d, n)
    requires ReachesIn(a, d.digest, y, steps) && GapBelow(a, y, c)
    ensures HasStale(Post(n))
    decreases steps
  {
    hide Resolve, Ranked, Post, HeldChild;
    if steps == 0 {
      ResolvesLocal(a, rank, render, d, n);
      RewrittenExactly(a, rank, render, d, n);
      var j, e := HeldIsKept(a, rank, render, d, n, c);
      RewrittenExactly(a, rank, render, e, n.children[j]);
      LastOfPost(n);
      HasStaleFrom(Post(n), n, j);
    } else {
      var b :| HeldChild(a, d.digest, b) && ReachesIn(a, b, y, steps - 1);
      var j, e := HeldIsKept(a, rank, render, d, n, b);
      GapIsStale(a, rank, render, e, n.children[j], y, c, steps - 1);
      StaleBelow(n, j);
    }
  }

  lemma {:induction false} LastOfPost(n: Node)
    ensures n in Post(n)
  {
    assert Post(n)[|Post(n)| - 1] == n;
  }

  lemma {:induction false} StaleBelow(n: Node, j: nat)
    requires j < |n.children| && HasStale(Post(n.children[j]))
    ensures HasStale(Post(n))
  {
    var i, k: nat :| 0 <= i < |Post(n.children[j])| && StaleChild(Post(n.children[j])[i], k);
    var x := Post(n.children[j])[i];
    PostWithin(n.children, j, x);
    HasStaleFrom(Post(n), x, k);
  }

  // ---- Entries that come to the same digest --------------------------------------------

  /** A digest stands for one body, and for one origin: the archive's or a rewritten. */
  ghost predicate OneOriginEach(ns: seq<Node>) {
    forall n, o :: n in ns && o in ns && n.desc.digest == o.desc.digest ==>
      n.manifest == o.manifest && n.synthesized == o.synthesized
  }

  ghost predicate Part(ns: seq<Node>, all: seq<Node>) {
    forall n :: n in ns ==> n in all
  }

  lemma {:induction false} PartOfChild(n: Node, j: nat, all: seq<Node>)
    requires j < |n.children| && Part(Post(n), all)
    ensures Part(Post(n.children[j]), all)
  {
    hide Post;
    forall x | x in Post(n.children[j]) ensures x in all { InPost(n, j, x); }
  }

  lemma {:induction false} InPost(n: Node, j: nat, x: Node)
    requires j < |n.children| && x in Post(n.children[j])
    ensures x in Post(n)
  {
    PostWithin(n.children, j, x);
  }

  /** Of two nodes with one digest, what is stale below one is below the other. */
  lemma {:induction false} TwinStale(a: Archive, rank: map<string, nat>, render: Render, all: seq<Node>, n: Node,
      o: Node)
    requires Ranked(a, rank) && Known(a, rank, render, n) && Known(a, rank, render, o)
    requires OneOriginEach(all) && Part(Post(n), all) && Part(Post(o), all)
    requires n.desc.digest == o.desc.digest && HasStale(Post(n))
    ensures HasStale(Post(o))
    decreases n
  {
    LastOfPost(n);
    LastOfPost(o);
    if n.synthesized {
      hide Ranked, OneOriginEach;
      var i, k: nat :| 0 <= i < |Post(n)| && StaleChild(Post(n)[i], k);
      var x := Post(n)[i];
      assert x != n && x in PostAll(n.children);
      var j, at := PostFrom(n.children, x);
      hide Known, Post, HasStale;
      HasStaleFrom(Post(n.children[j]), x, k);
      SameChild(a, rank, render, n, o, j);
      PartOfChild(n, j, all);
      PartOfChild(o, j, all);
      KnownChildren(a, rank, render, n);
      KnownChildren(a, rank, render, o);
      TwinStale(a, rank, render, all, n.children[j], o.children[j]);
      StaleBelow(o, j);
    } else {
      SameUnder(a, rank, render, n, o);
    }
  }

  /** Two rewritten indexes with one body have children of the same digests. */
  lemma {:induction false} SameChild(a: Archive, rank: map<string, nat>, render: Render, n: Node, o: Node, j: nat)
    requires Ranked(a, rank) && Known(a, rank, render, n) && Known(a, rank, render, o)
    requires n.synthesized && o.synthesized && n.manifest == o.manifest && j < |n.children|
    ensures j < |o.children| && n.children[j].desc.digest == o.children[j].desc.digest
  {
    var d :| Resolves(a, rank, render, d, n);
    ResolvesLocal(a, rank, render, d, n);
    hide Resolve, Ranked;
    NamesChild(a, rank, render, n, j);
    NamesChild(a, rank, render, o, j);
  }

  /** Two nodes that are the archive's own are the same but for their descriptors. */
  lemma {:induction false} SameUnder(a: Archive, rank: map<string, nat>, render: Render, n: Node, o: Node)
    requires Ranked(a, rank) && Known(a, rank, render, n) && Known(a, rank, render, o)
    requires !n.synthesized && !o.synthesized && n.desc.digest == o.desc.digest && HasStale(Post(n))
    ensures HasStale(Post(o))
  {
    var d :| Resolves(a, rank, render, d, n);
    var e :| Resolves(a, rank, render, e, o);
    ResolvesLocal(a, rank, render, d, n);
    ResolvesLocal(a, rank, render, e, o);
    hide Resolve, Ranked, Local;
    SameDigest(a, rank, render, d, e, n, o);
    var i, k: nat :| 0 <= i < |Post(n)| && StaleChild(Post(n)[i], k);
    if i < |PostAll(n.children)| {
      assert Post(o)[i] == PostAll(o.children)[i] == Post(n)[i];
      HasStaleFrom(Post(o), Post(n)[i], k);
    } else {
      LastOfPost(o);
      HasStaleFrom(Post(o), o, k);
    }
  }

  // ---- The whole archive ------------------------------------------------------------------

  ghost predicate AllResolve(a: Archive, rank: map<string, nat>, render: Render)
    requires Ranked(a, rank)
  {
    forall k :: 0 <= k < |a.index| ==> Resolve(a, rank, render, a.index[k]).Present?
  }

  /** What each entry of index.json resolves to, those that are listed twice too. */
  ghost function EntryNodes(a: Archive, rank: map<string, nat>, render: Render): seq<Node>
    requires Ranked(a, rank) && AllResolve(a, rank, render)
  {
    seq(|a.index|, k requires 0 <= k < |a.index| => Resolve(a, rank, render, a.index[k]).node)
  }

  ghost function AllNodes(a: Archive, rank: map<string, nat>, render: Render): seq<Node>
    requires Ranked(a, rank) && AllResolve(a, rank, render)
  {
    PostAll(EntryNodes(a, rank, render))
  }

  lemma {:induction false} RootsResolve(a: Archive, rank: map<string, nat>, render: Render, roots: seq<Node>)
    requires Ranked(a, rank) && RootsOf(a, rank, render, roots, |a.index|)
    ensures AllResolve(a, rank, render)
  {
    hide Resolve, Ranked;
    forall k | 0 <= k < |a.index| ensures Resolve(a, rank, render, a.index[k]).Present? {
      assert RootFor(a, rank, render, roots, a.index[k]);
    }
  }

  /** A root is the node of an entry. */
  lemma {:induction false} RootIsEntry(a: Archive, rank: map<string, nat>, render: Render, roots: seq<Node>, i: nat)
    returns (k: nat)
    requires Ranked(a, rank) && RootsOf(a, rank, render, roots, |a.index|) && i < |roots| && AllResolve(a, rank, render)
    ensures k < |a.index| && Resolves(a, rank, render, a.index[k], roots[i])
    ensures roots[i] == EntryNodes(a, rank, render)[k] && Part(Post(roots[i]), AllNodes(a, rank, render))
  {
    hide Resolve, Ranked, Post, PostAll;
    assert Listed(a, rank, render, |a.index|, roots[i]);
    k :| 0 <= k < |a.index| && Resolves(a, rank, render, a.index[k], roots[i]);
    EntryPart(a, rank, render, k);
  }

  lemma {:induction false} EntryPart(a: Archive, rank: map<string, nat>, render: Render, k: nat)
    requires Ranked(a, rank) && AllResolve(a, rank, render) && k < |a.index|
    ensures Part(Post(EntryNodes(a, rank, render)[k]), AllNodes(a, rank, render))
  {
    hide Resolve, Ranked, Post, PostAll;
    var es := EntryNodes(a, rank, render);
    forall x | x in Post(es[k]) ensures x in PostAll(es) { PostWithin(es, k, x); }
  }

  /** Without a hidden gap no unpruned index of the plan has a pruned child. */
  lemma {:induction false} NoGapNoStale(a: Archive, rank: map<string, nat>, render: Render, roots: seq<Node>)
    requires Ranked(a, rank) && RootsOf(a, rank, render, roots, |a.index|) && !HiddenGap(a)
    ensures NoStaleChild(PostAll(roots))
  {
    StaleExactly(PostAll(roots));
    RootsResolve(a, rank, render, roots);
    hide Resolve, Ranked, RootsOf, GapUnder, NoStaleChild;
    if HasStale(PostAll(roots)) {
      var at, j: nat :| 0 <= at < |PostAll(roots)| && StaleChild(PostAll(roots)[at], j);
      var i, _ := PostFrom(roots, PostAll(roots)[at]);
      var k := RootIsEntry(a, rank, render, roots, i);
      HasStaleFrom(Post(roots[i]), PostAll(roots)[at], j);
      StaleIsGap(a, rank, render, a.index[k], roots[i]);
    }
  }

  /** With one there is such an index, where a digest has one body and one origin. */
  lemma {:induction false} GapMakesStale(a: Archive, rank: map<string, nat>, render: Render, roots: seq<Node>)
    requires Ranked(a, rank) && RootsOf(a, rank, render, roots, |a.index|) && HiddenGap(a)
    requires AllResolve(a, rank, render) && OneOriginEach(AllNodes(a, rank, render))
    ensures !NoStaleChild(PostAll(roots))
  {
    hide Resolve, Ranked, Post, PostAll, GapUnder, OneOriginEach, HasStale, AllNodes, EntryNodes, AllResolve,
      RootsOf, NoStaleChild;
    var k :| 0 <= k < |a.index| && GapUnder(a, a.index[k].digest);
    var n := GapAtEntry(a, rank, render, k);
    var i := RootOfEntry(a, rank, render, roots, k, n);
    var h := RootIsEntry(a, rank, render, roots, i);
    assert Known(a, rank, render, n) && Known(a, rank, render, roots[i]);
    TwinStale(a, rank, render, AllNodes(a, rank, render), n, roots[i]);
    StaleInAll(roots, i);
    StaleExactly(PostAll(roots));
  }

  lemma {:induction false} GapAtEntry(a: Archive, rank: map<string, nat>, render: Render, k: nat) returns (n: Node)
    requires Ranked(a, rank) && AllResolve(a, rank, render) && k < |a.index| && GapUnder(a, a.index[k].digest)
    ensures Resolves(a, rank, render, a.index[k], n)
    ensures HasStale(Post(n)) && Part(Post(n), AllNodes(a, rank, render))
  {
    n := EntryNodes(a, rank, render)[k];
    hide Resolve, Ranked, Post, PostAll, GapBelow, HasStale;
    var y, c :| Reaches(a, a.index[k].digest, y) && GapBelow(a, y, c);
    var steps: nat :| ReachesIn(a, a.index[k].digest, y, steps);
    GapIsStale(a, rank, render, a.index[k], n, y, c, steps);
    EntryPart(a, rank, render, k);
  }

  lemma {:induction false} RootOfEntry(a: Archive, rank: map<string, nat>, render: Render, roots: seq<Node>, k: nat,
      n: Node)
    returns (i: nat)
    requires Ranked(a, rank) && RootsOf(a, rank, render, roots, |a.index|)
    requires k < |a.index| && Resolves(a, rank, render, a.index[k], n)
    ensures i < |roots| && roots[i].desc.digest == n.desc.digest
  {
    hide Resolve, Ranked;
    assert RootFor(a, rank, render, roots, a.index[k]);
    i :| 0 <= i < |roots| && roots[i].desc.digest == n.desc.digest;
  }

  lemma {:induction false} StaleInAll(roots: seq<Node>, i: nat)
    requires i < |roots| && HasStale(Post(roots[i]))
    ensures HasStale(PostAll(roots))
  {
    var at, j: nat :| 0 <= at < |Post(roots[i])| && StaleChild(Post(roots[i])[at], j);
    PostWithin(roots, i, Post(roots[i])[at]);
    HasStaleFrom(PostAll(roots), Post(roots[i])[at], j);
  }

  /** Told from the archive alone: without a hidden gap every index is put after all
      children its body names, in its repository, whatever the pool's order; with
      one it is not, unless a rewritten index happens to stand in. */
  lemma {:induction false} OrderHoldsForArchives(a: Archive, rank: map<string, nat>, render: Render, roots: seq<Node>,
                                                 names: seq<seq<Name>>, carried: Carried, pool: seq<Job>)
    requires Ranked(a, rank) && OneBodyEach(PostAll(roots)) && RootsOf(a, rank, render, roots, |a.index|)
    requires |names| == |roots| && AllNamed(names)
    requires Carries(PlanOf(a, roots).manifests, carried) && EntriesCarried(carried, PlanOf(a, roots).entries)
    requires PoolDone(pool, Images(AllJobs(carried, PlanOf(a, roots).entries, names)))
    ensures
      var served := Served(pool + Indexes(AllJobs(carried, PlanOf(a, roots).entries, names)));
      && (!HiddenGap(a) ==> served)
      && (NoStandIns(PostAll(roots)) && AllResolve(a, rank, render) && OneOriginEach(AllNodes(a, rank, render)) ==>
            (served <==> !HiddenGap(a)))
  {
    hide Ranked, OneBodyEach, PlanOf, PostAll, AllJobs, Images, Indexes, Served, PoolDone, RootsOf, NoStaleChild,
      NoStandIns, HiddenGap, AllResolve, OneOriginEach, AllNodes;
    OrderHoldsExactly(a, rank, render, roots, names, carried, pool);
    RootsResolve(a, rank, render, roots);
    if !HiddenGap(a) { NoGapNoStale(a, rank, render, roots); }
    else if OneOriginEach(AllNodes(a, rank, render)) { GapMakesStale(a, rank, render, roots); }
  }
}
