/** Publishing a plan (importer/importer.go): the jobs of every entry in every
    repository it is named in, images through a worker pool in any order, then
    the indexes one after the other; when an index finds its children there. */
module Publish {
  import opened Wrappers
  import opened OciManifest
  import opened ImportPlan
  import WorkerPool

  datatype Name = Name(repo: string, tag: string)

  /** One manifest to put into one repository under its references. */
  datatype Job = Job(repo: string, pm: PlanManifest, refs: seq<string>)

  /** reposOf: the distinct repositories among the names, first use first. */
  method ReposOf(names: seq<Name>) returns (repos: seq<string>)
    ensures repos == Repos(names)
  {
    repos := [];
    for k := 0 to |names|
      invariant repos == Repos(names[..k])
    {
      assert names[..k + 1][..k] == names[..k];
      if names[k].repo !in repos { repos := repos + [names[k].repo]; }
    }
    assert names[..|names|] == names;
  }

  function Repos(names: seq<Name>): seq<string> {
    if names == [] then []
    else
      var head := Repos(names[..|names| - 1]);
      if names[|names| - 1].repo in head then head else head + [names[|names| - 1].repo]
  }

  function Tags(names: seq<Name>, repo: string): seq<string> {
    if names == [] then []
    else
      var last := names[|names| - 1];
      Tags(names[..|names| - 1], repo) + if last.repo == repo then [last.tag] else []
  }

  function Refs(e: Entry, names: seq<Name>, d: string, repo: string): seq<string> {
    if d != e.digest then [d] else Tags(names, repo)
  }

  /** refsFor: a child goes under its digest, the entry under its tags. */
  method RefsFor(e: Entry, names: seq<Name>, d: string, repo: string) returns (refs: seq<string>)
    ensures refs == Refs(e, names, d, repo)
  {
    if d != e.digest {
      return [d];
    }
    refs := [];
    for k := 0 to |names|
      invariant refs == Tags(names[..k], repo)
    {
      assert names[..k + 1][..k] == names[..k];
      if names[k].repo == repo { refs := refs + [names[k].tag]; }
    }
    assert names[..|names|] == names;
  }

  /** Every repository of the names is listed once and has at least one tag. */
  lemma {:induction false} ReposExact(names: seq<Name>, repo: string)
    ensures repo in Repos(names) <==> exists k :: 0 <= k < |names| && names[k].repo == repo
    ensures forall i, j :: 0 <= i < j < |Repos(names)| ==> Repos(names)[i] != Repos(names)[j]
    ensures repo in Repos(names) ==> Tags(names, repo) != []
  {
    if names != [] {
      var init, last := names[..|names| - 1], names[|names| - 1];
      ReposExact(init, repo);
      assert (exists k :: 0 <= k < |names| && names[k].repo == repo) <==>
        (last.repo == repo || exists k :: 0 <= k < |init| && init[k].repo == repo) by {
        if k :| 0 <= k < |init| && init[k].repo == repo { assert names[k].repo == repo; }
      }
    }
  }

  /** Every entry has a name; assignNames sees to it. */
  ghost predicate AllNamed(names: seq<seq<Name>>) {
    forall i :: 0 <= i < |names| ==> names[i] != []
  }

  type Carried = map<string, PlanManifest>

  /** The plan's manifests by digest. */
  ghost predicate Carries(ms: seq<PlanManifest>, carried: Carried) {
    && (forall k :: 0 <= k < |ms| ==> ms[k].digest in carried)
    && (forall d :: d in carried ==> carried[d].digest == d && carried[d] in ms)
  }

  // ---- The jobs -------------------------------------------------------------------

  ghost predicate AllCarried(carried: Carried, e: Entry) {
    forall k :: 0 <= k < |e.manifests| ==> e.manifests[k] in carried
  }

  ghost predicate EntriesCarried(carried: Carried, es: seq<Entry>) {
    forall i :: 0 <= i < |es| ==> AllCarried(carried, es[i])
  }

  /** The jobs of one entry in one repository, in the entry's order. */
  ghost function Block(carried: Carried, e: Entry, names: seq<Name>, repo: string): seq<Job>
    requires AllCarried(carried, e)
  {
    seq(|e.manifests|, k requires 0 <= k < |e.manifests| =>
      Job(repo, carried[e.manifests[k]], Refs(e, names, e.manifests[k], repo)))
  }

  ghost function EntryJobs(carried: Carried, e: Entry, names: seq<Name>, repos: seq<string>): seq<Job>
    requires AllCarried(carried, e)
  {
    if repos == [] then []
    else EntryJobs(carried, e, names, repos[..|repos| - 1]) + Block(carried, e, names, repos[|repos| - 1])
  }

  ghost function AllJobs(carried: Carried, es: seq<Entry>, names: seq<seq<Name>>): seq<Job>
    requires |names| == |es| && EntriesCarried(carried, es)
  {
    if es == [] then []
    else
      var last := |es| - 1;
      AllJobs(carried, es[..last], names[..last]) + EntryJobs(carried, es[last], names[last], Repos(names[last]))
  }

  function Images(jobs: seq<Job>): seq<Job> {
    if jobs == [] then []
    else Images(jobs[..|jobs| - 1]) + if jobs[|jobs| - 1].pm.isIndex then [] else [jobs[|jobs| - 1]]
  }

  function Indexes(jobs: seq<Job>): seq<Job> {
    if jobs == [] then []
    else Indexes(jobs[..|jobs| - 1]) + if jobs[|jobs| - 1].pm.isIndex then [jobs[|jobs| - 1]] else []
  }

  lemma {:induction false} SplitNext(jobs: seq<Job>, j: Job)
    ensures Images(jobs + [j]) == if j.pm.isIndex then Images(jobs) else Images(jobs) + [j]
    ensures Indexes(jobs + [j]) == if j.pm.isIndex then Indexes(jobs) + [j] else Indexes(jobs)
  {
    assert (jobs + [j])[..|jobs|] == jobs;
  }

  function CarriedBy(ms: seq<PlanManifest>): Carried {
    if ms == [] then map[] else CarriedBy(ms[..|ms| - 1])[ms[|ms| - 1].digest := ms[|ms| - 1]]
  }

  method ByDigest(ms: seq<PlanManifest>) returns (carried: Carried)
    ensures carried == CarriedBy(ms) && Carries(ms, carried)
  {
    carried := map[];
    for k := 0 to |ms|
      invariant carried == CarriedBy(ms[..k]) && Carries(ms[..k], carried)
    {
      assert ms[..k + 1] == ms[..k] + [ms[k]];
      assert ms[..k + 1][..k] == ms[..k];
      carried := carried[ms[k].digest := ms[k]];
    }
    assert ms[..|ms|] == ms;
  }

  /** One entry in one repository: appends its jobs to the two lists. */
  method AddBlock(carried: Carried, e: Entry, names: seq<Name>, repo: string, images: seq<Job>, indexes: seq<Job>,
      ghost all: seq<Job>)
    returns (ok: bool, images': seq<Job>, indexes': seq<Job>)
    requires images == Images(all) && indexes == Indexes(all)
    ensures ok <==> AllCarried(carried, e)
    ensures ok ==> images' == Images(all + Block(carried, e, names, repo))
    ensures ok ==> indexes' == Indexes(all + Block(carried, e, names, repo))
  {
    images', indexes' := images, indexes;
    hide Images, Indexes, Refs, Block;
    ghost var now := all;
    BlockNone(carried, e, names, repo);
    for k := 0 to |e.manifests|
      invariant AllCarried(carried, FirstOf(e, k))
      invariant now == all + Block(carried, FirstOf(e, k), names, repo)
      invariant images' == Images(now) && indexes' == Indexes(now)
    {
      var d := e.manifests[k];
      if d !in carried {
        return false, images', indexes';
      }
      var refs := RefsFor(e, names, d, repo);
      var j := Job(repo, carried[d], refs);
      BlockNext(carried, e, names, repo, k);
      SplitNext(now, j);
      now := now + [j];
      if j.pm.isIndex { indexes' := indexes' + [j]; } else { images' := images' + [j]; }
    }
    assert FirstOf(e, |e.manifests|) == e;
    return true, images', indexes';
  }

  function FirstOf(e: Entry, k: nat): Entry
    requires k <= |e.manifests|
  {
    e.(manifests := e.manifests[..k])
  }

  lemma {:induction false} BlockNone(carried: Carried, e: Entry, names: seq<Name>, repo: string)
    ensures AllCarried(carried, FirstOf(e, 0)) && Block(carried, FirstOf(e, 0), names, repo) == []
  {
  }

  lemma {:induction false} BlockNext(carried: Carried, e: Entry, names: seq<Name>, repo: string, k: nat)
    requires k < |e.manifests| && AllCarried(carried, FirstOf(e, k)) && e.manifests[k] in carried
    ensures AllCarried(carried, FirstOf(e, k + 1))
    ensures Block(carried, FirstOf(e, k + 1), names, repo) ==
      Block(carried, FirstOf(e, k), names, repo) +
      [Job(repo, carried[e.manifests[k]], Refs(e, names, e.manifests[k], repo))]
  {
    assert forall d ::
      Refs(FirstOf(e, k), names, d, repo) == Refs(e, names, d, repo) == Refs(FirstOf(e, k + 1), names, d, repo);
    hide Refs;
  }

  /** The first part of publish: the jobs of the pool and those that follow it. */
  method BuildJobs(p: Plan, names: seq<seq<Name>>) returns (ok: bool, images: seq<Job>, indexes: seq<Job>)
    requires |names| == |p.entries|
    ensures Carries(p.manifests, CarriedBy(p.manifests))
    ensures EntriesCarried(CarriedBy(p.manifests), p.entries) ==>
      var all := AllJobs(CarriedBy(p.manifests), p.entries, names);
      ok && images == Images(all) && indexes == Indexes(all)
    ensures ok <==> forall i :: 0 <= i < |names| && names[i] != [] ==> AllCarried(CarriedBy(p.manifests), p.entries[i])
  {
    hide Images, Indexes, Block, Repos, CarriedBy, Carries, AllCarried;
    var have := ByDigest(p.manifests);
    ghost var good := EntriesCarried(have, p.entries);
    ghost var all: seq<Job> := [];
    ok, images, indexes := true, [], [];
    NoJobs();
    for i := 0 to |p.entries|
      invariant good ==> all == AllJobs(have, p.entries[..i], names[..i])
      invariant ok && images == Images(all) && indexes == Indexes(all)
      invariant forall h :: 0 <= h < i && names[h] != [] ==> AllCarried(have, p.entries[h])
    {
      ok, images, indexes, all := AddEntry(have, p.entries[i], names[i], images, indexes, all);
      if !ok {
        return;
      }
      assert p.entries[..i + 1][..i] == p.entries[..i] && names[..i + 1][..i] == names[..i];
    }
    assert p.entries[..|p.entries|] == p.entries && names[..|names|] == names;
  }

  /** One entry: its jobs in each of its repositories. */
  method AddEntry(carried: Carried, e: Entry, names: seq<Name>, images: seq<Job>, indexes: seq<Job>,
      ghost all: seq<Job>)
    returns (ok: bool, images': seq<Job>, indexes': seq<Job>, ghost all': seq<Job>)
    requires images == Images(all) && indexes == Indexes(all)
    ensures ok <==> (names == [] || AllCarried(carried, e))
    ensures AllCarried(carried, e) ==> all' == all + EntryJobs(carried, e, names, Repos(names))
    ensures ok ==> images' == Images(all') && indexes' == Indexes(all')
  {
    hide Images, Indexes, Block, Repos;
    ok, images', indexes', all' := true, images, indexes, all;
    var repos := ReposOf(names);
    if names != [] { SomeRepo(names); }
    NoRepos();
    ghost var good := AllCarried(carried, e);
    assert good ==> all' == all + EntryJobs(carried, e, names, repos[..0]);
    for r := 0 to |repos|
      invariant ok && images' == Images(all') && indexes' == Indexes(all') && (r > 0 ==> good)
      invariant good ==> all' == all + EntryJobs(carried, e, names, repos[..r])
    {
      ok, images', indexes' := AddBlock(carried, e, names, repos[r], images', indexes', all');
      if !ok {
        return;
      }
      assert repos[..r + 1][..r] == repos[..r];
      all' := all' + Block(carried, e, names, repos[r]);
    }
    assert repos[..|repos|] == repos;
  }

  lemma {:induction false} NoRepos()
    ensures Repos([]) == []
  {
  }

  lemma {:induction false} NoJobs()
    ensures Images([]) == [] && Indexes([]) == []
  {
  }

  // ---- When an index finds its children ----------------------------------------------

  /** A put of the digest into the repository among the first i. */
  ghost predicate PutBefore(puts: seq<Job>, repo: string, d: string, i: nat) {
    exists k :: 0 <= k < i && k < |puts| && puts[k].repo == repo && puts[k].pm.digest == d
  }

  /** An index is put after every child its body names, in its repository. */
  ghost predicate ServedAt(puts: seq<Job>, i: nat)
    requires i < |puts|
  {
    puts[i].pm.isIndex ==>
      forall c :: 0 <= c < |Children(puts[i].pm.body)| ==>
        PutBefore(puts, puts[i].repo, Children(puts[i].pm.body)[c].digest, i)
  }

  ghost predicate Served(puts: seq<Job>) {
    forall i :: 0 <= i < |puts| ==> ServedAt(puts, i)
  }

  lemma {:induction false} PutBeforeLonger(xs: seq<Job>, ys: seq<Job>, repo: string, d: string, i: nat)
    requires PutBefore(ys, repo, d, i)
    ensures PutBefore(xs + ys, repo, d, |xs| + i)
  {
    var k :| 0 <= k < i && k < |ys| && ys[k].repo == repo && ys[k].pm.digest == d;
    assert (xs + ys)[|xs| + k] == ys[k];
  }

  lemma {:induction false} PutBeforeSame(xs: seq<Job>, ys: seq<Job>, repo: string, d: string, i: nat)
    requires PutBefore(xs, repo, d, i)
    ensures PutBefore(xs + ys, repo, d, i)
  {
    var k :| 0 <= k < i && k < |xs| && xs[k].repo == repo && xs[k].pm.digest == d;
    assert (xs + ys)[k] == xs[k];
  }

  lemma {:induction false} ServedJoin(xs: seq<Job>, ys: seq<Job>)
    requires Served(xs) && Served(ys)
    ensures Served(xs + ys)
  {
    hide PutBefore;
    var all := xs + ys;
    forall i | 0 <= i < |all| ensures ServedAt(all, i) {
      if all[i].pm.isIndex {
        forall c | 0 <= c < |Children(all[i].pm.body)|
          ensures PutBefore(all, all[i].repo, Children(all[i].pm.body)[c].digest, i) {
          var d := Children(all[i].pm.body)[c].digest;
          if i < |xs| {
            assert all[i] == xs[i] && ServedAt(xs, i);
            PutBeforeSame(xs, ys, xs[i].repo, d, i);
          } else {
            assert all[i] == ys[i - |xs|] && ServedAt(ys, i - |xs|);
            PutBeforeLonger(xs, ys, ys[i - |xs|].repo, d, i - |xs|);
          }
        }
      }
    }
  }

  lemma {:induction false} InItsList(all: seq<Job>, k: nat)
    requires k < |all|
    ensures if all[k].pm.isIndex then all[k] in Indexes(all) else all[k] in Images(all)
  {
    var last := |all| - 1;
    if k < last { InItsList(all[..last], k); }
  }

  /** What comes before an index is in the pool or in the list of indexes. */
  lemma {:induction false} FoundAmong(init: seq<Job>, j: Job, pool: seq<Job>, repo: string, d: string)
    requires PutBefore(init + [j], repo, d, |init|)
    requires forall i :: i in Images(init) ==> i in pool
    ensures PutBefore(pool + Indexes(init), repo, d, |pool + Indexes(init)|)
  {
    hide Images, Indexes;
    var k :| 0 <= k < |init| && (init + [j])[k].repo == repo && (init + [j])[k].pm.digest == d;
    InItsList(init, k);
    assert init[k] in pool + Indexes(init);
  }

  lemma {:induction false} LastIsServed(init: seq<Job>, j: Job, pool: seq<Job>)
    requires Served(init + [j]) && j.pm.isIndex && forall i :: i in Images(init) ==> i in pool
    ensures
      var puts := pool + Indexes(init);
      forall c :: 0 <= c < |Children(j.pm.body)| ==> PutBefore(puts, j.repo, Children(j.pm.body)[c].digest, |puts|)
  {
    hide Images, Indexes, PutBefore, Children;
    var all, puts := init + [j], pool + Indexes(init);
    assert ServedAt(all, |init|) && all[|init|] == j;
    forall c | 0 <= c < |Children(j.pm.body)| ensures PutBefore(puts, j.repo, Children(j.pm.body)[c].digest, |puts|) {
      FoundAmong(init, j, pool, j.repo, Children(j.pm.body)[c].digest);
    }
  }

  lemma {:induction false} IndexesServed(all: seq<Job>, pool: seq<Job>)
    requires Served(all) && forall j :: j in Images(all) ==> j in pool
    requires forall j :: j in pool ==> !j.pm.isIndex
    ensures Served(pool + Indexes(all))
    decreases |all|
  {
    if all == [] {
      assert pool + Indexes(all) == pool;
    } else {
      var init, j := all[..|all| - 1], all[|all| - 1];
      assert all == init + [j];
      SplitNext(init, j);
      hide Images, Indexes, Served;
      ServedPrefix(init, [j]);
      IndexesServed(init, pool);
      if j.pm.isIndex {
        assert pool + Indexes(all) == (pool + Indexes(init)) + [j];
        LastIsServed(init, j, pool);
        ServedLast(pool + Indexes(init), j);
      }
    }
  }

  lemma {:induction false} ServedPrefix(xs: seq<Job>, ys: seq<Job>)
    requires Served(xs + ys)
    ensures Served(xs)
  {
    var all := xs + ys;
    forall i | 0 <= i < |xs| ensures ServedAt(xs, i) {
      assert ServedAt(all, i) && all[i] == xs[i];
      if xs[i].pm.isIndex {
        forall c | 0 <= c < |Children(xs[i].pm.body)|
          ensures PutBefore(xs, xs[i].repo, Children(xs[i].pm.body)[c].digest, i) {
          assert PutBefore(all, xs[i].repo, Children(xs[i].pm.body)[c].digest, i);
        }
      }
    }
  }

  lemma {:induction false} ServedLast(puts: seq<Job>, j: Job)
    requires Served(puts)
    requires forall c :: 0 <= c < |Children(j.pm.body)| ==>
      PutBefore(puts, j.repo, Children(j.pm.body)[c].digest, |puts|)
    ensures Served(puts + [j])
  {
    hide PutBefore;
    var all := puts + [j];
    forall i | 0 <= i < |all| ensures ServedAt(all, i) {
      forall c | 0 <= c < |Children(all[i].pm.body)| && all[i].pm.isIndex
        ensures PutBefore(all, all[i].repo, Children(all[i].pm.body)[c].digest, i)
      {
        if i < |puts| { assert all[i] == puts[i] && ServedAt(puts, i); }
        PutBeforeSame(puts, [j], all[i].repo, Children(all[i].pm.body)[c].digest, i);
      }
    }
  }

  /** A digest stands for one body. */
  ghost predicate OneBodyEach(ns: seq<Node>) {
    forall i, j :: 0 <= i < |ns| && 0 <= j < |ns| && ns[i].desc.digest == ns[j].desc.digest ==>
      ns[i].manifest == ns[j].manifest
  }

  /** No unpruned index has a pruned child. */
  ghost predicate NoStaleChild(ns: seq<Node>) {
    forall i :: 0 <= i < |ns| && IsIndex(ns[i].manifest) && !ns[i].synthesized ==> NonePruned(ns[i].children)
  }

  ghost predicate NonePruned(ns: seq<Node>) {
    forall j :: 0 <= j < |ns| ==> !ns[j].synthesized
  }

  /** The digest a body has for its j-th child is the child's own, unless an
      unpruned index has it for a pruned child. */
  lemma {:induction false} NamesChild(a: Archive, rank: map<string, nat>, render: Render, n: Node, j: nat)
    requires Ranked(a, rank) && Known(a, rank, render, n) && IsIndex(n.manifest) && j < |Children(n.manifest)|
    requires n.synthesized || NonePruned(n.children)
    ensures |n.children| == |Children(n.manifest)| && Children(n.manifest)[j].digest == n.children[j].desc.digest
  {
    var d :| Resolves(a, rank, render, d, n);
    ResolvesLocal(a, rank, render, d, n);
    var c := ResolvesChild(a, rank, render, d, n, j);
    ResolvesLocal(a, rank, render, c, n.children[j]);
  }

  /** The bodies carried are those of the nodes listed. */
  ghost predicate Faithful(carried: Carried, ns: seq<Node>) {
    forall i :: 0 <= i < |ns| ==> ns[i].desc.digest in carried && Carries1(carried, ns[i])
  }

  ghost predicate Carries1(carried: Carried, n: Node)
    requires n.desc.digest in carried
  {
    var pm := carried[n.desc.digest];
    pm.digest == n.desc.digest && pm.body == n.manifest && pm.isIndex == IsIndex(n.manifest)
  }

  /** Within one entry and repository, children come before their index. */
  lemma {:induction false} BlockServed(a: Archive, rank: map<string, nat>, render: Render, carried: Carried, n: Node,
      names: seq<Name>, repo: string)
    requires Ranked(a, rank) && AllKnown(a, rank, render, Post(n)) && NoStaleChild(Post(n))
    requires Faithful(carried, Post(n))
    requires AllCarried(carried, EntryOf(n))
    ensures Served(Block(carried, EntryOf(n), names, repo))
  {
    PostOrder(n);
    var ns := Post(n);
    var jobs := Block(carried, EntryOf(n), names, repo);
    hide Post, Known, Ranked, Refs;
    assert |jobs| == |ns|;
    assert forall i :: 0 <= i < |ns| ==> jobs[i].repo == repo && jobs[i].pm == carried[ns[i].desc.digest];
    hide Block, AllCarried, EntryOf;
    forall i | 0 <= i < |jobs| ensures ServedAt(jobs, i) {
      assert Carries1(carried, ns[i]);
      if jobs[i].pm.isIndex {
        forall c | 0 <= c < |Children(jobs[i].pm.body)|
          ensures PutBefore(jobs, repo, Children(jobs[i].pm.body)[c].digest, i) {
          NamesChild(a, rank, render, ns[i], c);
          assert Before(ns, ns[i].children[c], i);
          var k :| 0 <= k < i && k < |ns| && ns[k] == ns[i].children[c];
          assert Carries1(carried, ns[k]);
        }
      }
    }
  }

  lemma {:induction false} PostWithin(roots: seq<Node>, i: nat, n: Node)
    requires i < |roots| && n in Post(roots[i])
    ensures n in PostAll(roots)
  {
    var last := |roots| - 1;
    if i < last { PostWithin(roots[..last], i, n); }
  }

  /** What holds of all the nodes of a plan holds of each entry's. */
  ghost predicate Sound(a: Archive, rank: map<string, nat>, render: Render, carried: Carried, ns: seq<Node>)
    requires Ranked(a, rank)
  {
    AllKnown(a, rank, render, ns) && NoStaleChild(ns) && Faithful(carried, ns)
  }

  lemma {:induction false} SoundEntry(a: Archive, rank: map<string, nat>, render: Render, carried: Carried,
      roots: seq<Node>, i: nat)
    requires Ranked(a, rank) && Sound(a, rank, render, carried, PostAll(roots)) && i < |roots|
    ensures Sound(a, rank, render, carried, Post(roots[i]))
  {
    hide Ranked, Known, Post, PostAll, Carries1, NonePruned;
    var ns, all := Post(roots[i]), PostAll(roots);
    forall k | 0 <= k < |ns|
      ensures Known(a, rank, render, ns[k]) && ns[k].desc.digest in carried && Carries1(carried, ns[k])
      ensures IsIndex(ns[k].manifest) && !ns[k].synthesized ==> NonePruned(ns[k].children)
    {
      PostWithin(roots, i, ns[k]);
      var j :| 0 <= j < |all| && all[j] == ns[k];
    }
  }

  ghost predicate EntriesOf(es: seq<Entry>, roots: seq<Node>) {
    |es| == |roots| && forall i :: 0 <= i < |es| ==> es[i] == EntryOf(roots[i])
  }

  /** Every manifest an entry lists is carried. */
  lemma {:induction false} ListedIsCarried(a: Archive, rank: map<string, nat>, render: Render, carried: Carried,
      es: seq<Entry>, roots: seq<Node>)
    requires Ranked(a, rank) && Faithful(carried, PostAll(roots)) && EntriesOf(es, roots)
    ensures EntriesCarried(carried, es)
  {
    hide Ranked, Post, PostAll, Carries1;
    forall i | 0 <= i < |es| ensures AllCarried(carried, es[i]) {
      var ns, all := Post(roots[i]), PostAll(roots);
      forall k | 0 <= k < |ns| ensures ns[k].desc.digest in carried {
        PostWithin(roots, i, ns[k]);
        var j :| 0 <= j < |all| && all[j] == ns[k];
      }
    }
  }

  lemma {:induction false} FaithfulPlan(carried: Carried, ns: seq<Node>)
    requires OneBodyEach(ns) && Carries(AddManifests([], ns), carried)
    ensures Faithful(carried, ns)
  {
    hide Carries1, Carries, OneBodyEach;
    forall i | 0 <= i < |ns| ensures ns[i].desc.digest in carried && Carries1(carried, ns[i]) {
      var x := CarriedNode(carried, ns, i);
      SameBody(ns, x, i);
    }
  }

  /** What is carried for a node's digest is the manifest of a node with that digest. */
  lemma {:induction false} CarriedNode(carried: Carried, ns: seq<Node>, i: nat) returns (x: nat)
    requires Carries(AddManifests([], ns), carried) && i < |ns|
    ensures ns[i].desc.digest in carried
    ensures x < |ns| && ns[x].desc.digest == ns[i].desc.digest && carried[ns[i].desc.digest] == ManifestOf(ns[x])
  {
    ManifestsExact(ns);
    hide AddManifests, UniqueManifests;
    var ms, d := AddManifests([], ns), ns[i].desc.digest;
    assert Lists(ms, d);
    var k :| 0 <= k < |ms| && ms[k] == carried[d];
    hide Lists, ListsAll, Carries;
    assert IsOneOf(ns, ms[k]);
    x :| 0 <= x < |ns| && carried[d] == ManifestOf(ns[x]);
  }

  lemma {:induction false} SameBody(ns: seq<Node>, x: nat, i: nat)
    requires OneBodyEach(ns) && x < |ns| && i < |ns| && ns[x].desc.digest == ns[i].desc.digest
    ensures forall carried: Carried ::
      ns[i].desc.digest in carried && carried[ns[i].desc.digest] == ManifestOf(ns[x]) ==> Carries1(carried, ns[i])
  {
  }

  lemma {:induction false} EntryServed(a: Archive, rank: map<string, nat>, render: Render, carried: Carried, n: Node,
                                       names: seq<Name>, repos: seq<string>)
    requires Ranked(a, rank) && Sound(a, rank, render, carried, Post(n)) && AllCarried(carried, EntryOf(n))
    ensures Served(EntryJobs(carried, EntryOf(n), names, repos))
  {
    hide Ranked, Sound, Block, AllCarried, EntryOf, ServedAt;
    if repos != [] {
      var last := |repos| - 1;
      EntryServed(a, rank, render, carried, n, names, repos[..last]);
      SoundParts(a, rank, render, carried, Post(n));
      BlockServed(a, rank, render, carried, n, names, repos[last]);
      ServedJoin(EntryJobs(carried, EntryOf(n), names, repos[..last]), Block(carried, EntryOf(n), names, repos[last]));
    }
  }

  lemma {:induction false} SoundParts(a: Archive, rank: map<string, nat>, render: Render, carried: Carried,
      ns: seq<Node>)
    requires Ranked(a, rank) && Sound(a, rank, render, carried, ns)
    ensures AllKnown(a, rank, render, ns) && NoStaleChild(ns) && Faithful(carried, ns)
  {
  }

  lemma {:induction false} AllServed(a: Archive, rank: map<string, nat>, render: Render, carried: Carried,
                                     es: seq<Entry>, names: seq<seq<Name>>, roots: seq<Node>)
    requires Ranked(a, rank) && EntriesOf(es, roots) && |names| == |es| && EntriesCarried(carried, es)
    requires forall i :: 0 <= i < |roots| ==> Sound(a, rank, render, carried, Post(roots[i]))
    ensures Served(AllJobs(carried, es, names))
  {
    hide Ranked, Sound, EntryJobs, AllCarried, EntryOf, Post, ServedAt;
    if es != [] {
      var last := |es| - 1;
      AllServed(a, rank, render, carried, es[..last], names[..last], roots[..last]);
      EntryServed(a, rank, render, carried, roots[last], names[last], Repos(names[last]));
      var tail := EntryJobs(carried, es[last], names[last], Repos(names[last]));
      ServedJoin(AllJobs(carried, es[..last], names[..last]), tail);
    }
  }

  /** What the pool has put: every image job, and only those, in any order. */
  ghost predicate PoolDone(pool: seq<Job>, images: seq<Job>) {
    forall j :: j in pool <==> j in images
  }

  lemma {:induction false} ImagesAreImages(all: seq<Job>, j: Job)
    requires j in Images(all) || j in Indexes(all)
    ensures j in all && (j in Images(all) ==> !j.pm.isIndex) && (j in Indexes(all) ==> j.pm.isIndex)
  {
    var init, last := all[..|all| - 1], all[|all| - 1];
    if j in Images(init) || j in Indexes(init) { ImagesAreImages(init, j); }
  }

  /** A pool that returned nil has put every image job. */
  lemma {:induction false} PoolPutsAllImages(images: seq<Job>, workers: nat, states: seq<WorkerPool.State>,
      steps: seq<WorkerPool.Step>, k: nat, pool: seq<Job>)
    requires WorkerPool.Run(|images|, workers, states, steps) && k <= |steps|
    requires states[k].returned == Some(WorkerPool.Nil)
    requires |pool| == |states[k].finished|
    requires forall i :: 0 <= i < |pool| ==>
      states[k].finished[i] < |images| && pool[i] == images[states[k].finished[i]]
    ensures PoolDone(pool, images)
  {
    hide WorkerPool.Init, WorkerPool.Enabled, WorkerPool.Next;
    WorkerPool.NilMeansAllDone(|images|, workers, states, steps, k);
    var finished := states[k].finished;
    forall j | j in images ensures j in pool {
      var i: nat :| i < |images| && images[i] == j;
      assert i in finished;
      var at :| 0 <= at < |finished| && finished[at] == i;
      assert pool[at] == j;
    }
  }

  /** Provided no unpruned index has a pruned child, the jobs never lack a
      manifest and every index is put after all children its body names, in that
      repository, whatever order the pool finished the images in. */
  lemma {:induction false} IndexesFollowTheirChildren(a: Archive, rank: map<string, nat>, render: Render,
      roots: seq<Node>,
                                   names: seq<seq<Name>>, carried: Carried, pool: seq<Job>)
    requires Ranked(a, rank) && OneBodyEach(PostAll(roots)) && RootsOf(a, rank, render, roots, |a.index|)
    requires |names| == |roots| && Carries(PlanOf(a, roots).manifests, carried)
    requires NoStaleChild(PostAll(roots))
    ensures EntriesCarried(carried, PlanOf(a, roots).entries)
    ensures var all := AllJobs(carried, PlanOf(a, roots).entries, names);
      PoolDone(pool, Images(all)) ==> Served(pool + Indexes(all))
  {
    hide Ranked, OneBodyEach, AddManifests, AddAllBlobs, PostAll, Post, Sound, AllKnown, NoStaleChild, Faithful,
      EntryOf, ServedAt;
    RootsKnown(a, rank, render, roots);
    hide RootsOf;
    var ns, es := PostAll(roots), PlanOf(a, roots).entries;
    FaithfulPlan(carried, ns);
    ListedIsCarried(a, rank, render, carried, es, roots);
    assert Sound(a, rank, render, carried, ns) by { MakeSound(a, rank, render, carried, ns); }
    forall i | 0 <= i < |roots| ensures Sound(a, rank, render, carried, Post(roots[i])) {
      SoundEntry(a, rank, render, carried, roots, i);
    }
    AllServed(a, rank, render, carried, es, names, roots);
    var all := AllJobs(carried, es, names);
    hide AllJobs, Images, Indexes, Served;
    if PoolDone(pool, Images(all)) {
      forall j | j in pool ensures !j.pm.isIndex { ImagesAreImages(all, j); }
      IndexesServed(all, pool);
    }
  }

  lemma {:induction false} MakeSound(a: Archive, rank: map<string, nat>, render: Render, carried: Carried,
      ns: seq<Node>)
    requires Ranked(a, rank) && AllKnown(a, rank, render, ns) && NoStaleChild(ns) && Faithful(carried, ns)
    ensures Sound(a, rank, render, carried, ns)
  {
  }

  // ---- The index that is left with a digest nobody publishes ------------------------------

  /** The j-th child of an unpruned index was pruned. */
  predicate StaleChild(n: Node, j: nat) {
    IsIndex(n.manifest) && !n.synthesized && j < |n.children| && n.children[j].synthesized
  }

  /** A rewritten index that happens to have the very digest n's body has there. */
  predicate StandsIn(n: Node, j: nat, x: Node) {
    x.synthesized && j < |Children(n.manifest)| && x.desc.digest == Children(n.manifest)[j].digest
  }

  ghost predicate NothingStandsIn(ns: seq<Node>, n: Node, j: nat) {
    forall k :: 0 <= k < |ns| ==> !StandsIn(n, j, ns[k])
  }

  ghost predicate NoStandIns(ns: seq<Node>) {
    forall i, j :: 0 <= i < |ns| && StaleChild(ns[i], j) ==> NothingStandsIn(ns, ns[i], j)
  }

  /** The digest an unpruned index has for a pruned child is no node's digest, but
      for a rewritten one that stands in. */
  lemma {:induction false} StaleDigest(a: Archive, rank: map<string, nat>, render: Render, n: Node, j: nat, x: Node)
    requires Ranked(a, rank) && Known(a, rank, render, n) && Known(a, rank, render, x) && StaleChild(n, j)
    ensures j < |Children(n.manifest)|
    ensures x.desc.digest == Children(n.manifest)[j].digest <==> StandsIn(n, j, x)
  {
    var d :| Resolves(a, rank, render, d, n);
    ResolvesLocal(a, rank, render, d, n);
    var c := ResolvesChild(a, rank, render, d, n, j);
    ResolvesLocal(a, rank, render, c, n.children[j]);
    var e :| Resolves(a, rank, render, e, x);
    ResolvesLocal(a, rank, render, e, x);
    hide Resolve, Ranked;
    if !x.synthesized && x.desc.digest == c.digest { SameDigest(a, rank, render, e, c, x, n.children[j]); }
  }

  ghost predicate FromCarried(carried: Carried, jobs: seq<Job>) {
    forall i :: 0 <= i < |jobs| ==> jobs[i].pm.digest in carried && carried[jobs[i].pm.digest] == jobs[i].pm
  }

  ghost predicate KeyedByDigest(carried: Carried) {
    forall d :: d in carried ==> carried[d].digest == d
  }

  lemma {:induction false} EntryFromCarried(carried: Carried, e: Entry, names: seq<Name>, repos: seq<string>)
    requires AllCarried(carried, e) && KeyedByDigest(carried)
    ensures FromCarried(carried, EntryJobs(carried, e, names, repos))
  {
    if repos != [] { EntryFromCarried(carried, e, names, repos[..|repos| - 1]); }
  }

  lemma {:induction false} AllFromCarried(carried: Carried, es: seq<Entry>, names: seq<seq<Name>>)
    requires |names| == |es| && EntriesCarried(carried, es) && KeyedByDigest(carried)
    ensures FromCarried(carried, AllJobs(carried, es, names))
  {
    hide EntryJobs, Repos;
    if es != [] {
      var last := |es| - 1;
      AllFromCarried(carried, es[..last], names[..last]);
      EntryFromCarried(carried, es[last], names[last], Repos(names[last]));
    }
  }

  ghost predicate HasJob(jobs: seq<Job>, pm: PlanManifest) {
    exists t :: 0 <= t < |jobs| && jobs[t].pm == pm
  }

  lemma {:induction false} HasJobJoin(xs: seq<Job>, ys: seq<Job>, pm: PlanManifest)
    requires HasJob(xs, pm) || HasJob(ys, pm)
    ensures HasJob(xs + ys, pm)
  {
    if t :| 0 <= t < |xs| && xs[t].pm == pm {
      assert (xs + ys)[t] == xs[t];
    } else {
      var t :| 0 <= t < |ys| && ys[t].pm == pm;
      assert (xs + ys)[|xs| + t] == ys[t];
    }
  }

  lemma {:induction false} EntryHasJob(carried: Carried, e: Entry, names: seq<Name>, repos: seq<string>, k: nat)
    requires AllCarried(carried, e) && k < |e.manifests| && repos != []
    ensures HasJob(EntryJobs(carried, e, names, repos), carried[e.manifests[k]])
  {
    var last := |repos| - 1;
    assert Block(carried, e, names, repos[last])[k].pm == carried[e.manifests[k]];
    var head := EntryJobs(carried, e, names, repos[..last]);
    HasJobJoin(head, Block(carried, e, names, repos[last]), carried[e.manifests[k]]);
  }

  lemma {:induction false} AllHaveJob(carried: Carried, es: seq<Entry>, names: seq<seq<Name>>, i: nat, k: nat)
    requires |names| == |es| && EntriesCarried(carried, es) && i < |es| && names[i] != [] && k < |es[i].manifests|
    ensures HasJob(AllJobs(carried, es, names), carried[es[i].manifests[k]])
  {
    hide AllJobs, EntryJobs, HasJob, Repos, AllCarried;
    var last := |es| - 1;
    var head := AllJobs(carried, es[..last], names[..last]);
    var tail := EntryJobs(carried, es[last], names[last], Repos(names[last]));
    AllJobsLast(carried, es, names);
    ListedCarried(carried, es[i], k);
    if i < last {
      AllHaveJob(carried, es[..last], names[..last], i, k);
    } else {
      SomeRepo(names[last]);
      EntryHasJob(carried, es[last], names[last], Repos(names[last]), k);
    }
    HasJobJoin(head, tail, carried[es[i].manifests[k]]);
  }

  lemma {:induction false} ListedCarried(carried: Carried, e: Entry, k: nat)
    requires AllCarried(carried, e) && k < |e.manifests|
    ensures e.manifests[k] in carried
  {
  }

  lemma {:induction false} SomeRepo(names: seq<Name>)
    requires names != []
    ensures Repos(names) != []
  {
    ReposExact(names, names[0].repo);
  }

  lemma {:induction false} AllJobsLast(carried: Carried, es: seq<Entry>, names: seq<seq<Name>>)
    requires |names| == |es| > 0 && EntriesCarried(carried, es)
    ensures var last := |es| - 1;
      AllJobs(carried, es, names) ==
        AllJobs(carried, es[..last], names[..last]) + EntryJobs(carried, es[last], names[last], Repos(names[last]))
  {
  }

  lemma {:induction false} PostFrom(roots: seq<Node>, n: Node) returns (i: nat, k: nat)
    requires n in PostAll(roots)
    ensures i < |roots| && k < |Post(roots[i])| && Post(roots[i])[k] == n
  {
    var last := |roots| - 1;
    if n in Post(roots[last]) {
      i := last;
      k :| 0 <= k < |Post(roots[last])| && Post(roots[last])[k] == n;
    } else {
      i, k := PostFrom(roots[..last], n);
    }
  }

  /** An index job with a child no job publishes is not served. */
  lemma {:induction false} Unserved(all: seq<Job>, pool: seq<Job>, pm: PlanManifest, c: nat)
    requires HasJob(all, pm) && pm.isIndex && c < |Children(pm.body)| && PoolDone(pool, Images(all))
    requires forall t :: 0 <= t < |all| ==> all[t].pm.digest != Children(pm.body)[c].digest
    ensures !Served(pool + Indexes(all))
  {
    var t :| 0 <= t < |all| && all[t].pm == pm;
    InItsList(all, t);
    var puts := pool + Indexes(all);
    assert all[t] in puts;
    var u :| 0 <= u < |puts| && puts[u] == all[t];
    hide Images, Indexes;
    forall k | 0 <= k < |puts| ensures puts[k].pm.digest != Children(pm.body)[c].digest {
      assert puts[k] in pool || puts[k] in Indexes(all);
      ImagesAreImages(all, puts[k]);
    }
    assert !PutBefore(puts, puts[u].repo, Children(pm.body)[c].digest, u);
    assert !ServedAt(puts, u);
  }

  lemma {:induction false} KnownAt(a: Archive, rank: map<string, nat>, render: Render, ns: seq<Node>, x: nat)
    requires Ranked(a, rank) && AllKnown(a, rank, render, ns) && x < |ns|
    ensures Known(a, rank, render, ns[x])
  {
  }

  /** Every job puts one of the plan's nodes. */
  lemma {:induction false} JobIsNode(carried: Carried, ns: seq<Node>, all: seq<Job>, t: nat) returns (x: nat)
    requires Carries(AddManifests([], ns), carried) && FromCarried(carried, all) && t < |all|
    ensures x < |ns| && all[t].pm.digest == ns[x].desc.digest
  {
    ManifestsExact(ns);
    hide AddManifests;
    var ms := AddManifests([], ns);
    assert carried[all[t].pm.digest] == all[t].pm && all[t].pm in ms;
    var m :| 0 <= m < |ms| && ms[m] == all[t].pm;
    assert IsOneOf(ns, ms[m]);
    x :| 0 <= x < |ns| && all[t].pm == ManifestOf(ns[x]);
  }

  /** A pruned child below an unpruned index breaks the order for good: nothing
      is ever put under the digest that the index's body still has. */
  lemma {:induction false} StaleChildIsNeverPut(a: Archive, rank: map<string, nat>, render: Render, roots: seq<Node>,
                             names: seq<seq<Name>>, carried: Carried, pool: seq<Job>, n: Node, j: nat)
    requires Ranked(a, rank) && OneBodyEach(PostAll(roots)) && RootsOf(a, rank, render, roots, |a.index|)
    requires |names| == |roots| && AllNamed(names)
    requires Carries(PlanOf(a, roots).manifests, carried) && EntriesCarried(carried, PlanOf(a, roots).entries)
    requires PoolDone(pool, Images(AllJobs(carried, PlanOf(a, roots).entries, names)))
    requires n in PostAll(roots) && StaleChild(n, j) && NothingStandsIn(PostAll(roots), n, j)
    ensures !Served(pool + Indexes(AllJobs(carried, PlanOf(a, roots).entries, names)))
  {
    hide Ranked, OneBodyEach, AddManifests, AddAllBlobs, PostAll, Post, AllJobs, Images, Indexes, Served, PoolDone;
    RootsKnown(a, rank, render, roots);
    hide RootsOf, Known;
    var ns, es := PostAll(roots), PlanOf(a, roots).entries;
    FaithfulPlan(carried, ns);
    var i, k := PostFrom(roots, n);
    AllHaveJob(carried, es, names, i, k);
    var at :| 0 <= at < |ns| && ns[at] == n;
    assert Carries1(carried, ns[at]);
    var pm := carried[n.desc.digest];
    AllFromCarried(carried, es, names);
    var all := AllJobs(carried, es, names);
    StaleDigest(a, rank, render, n, j, n);
    hide AllCarried, Carries1, FromCarried, Carries, EntryOf, Faithful, EntriesCarried;
    forall t | 0 <= t < |all| ensures all[t].pm.digest != Children(pm.body)[j].digest {
      var x := JobIsNode(carried, ns, all, t);
      assert !StandsIn(n, j, ns[x]);
      KnownAt(a, rank, render, ns, x);
      StaleDigest(a, rank, render, n, j, ns[x]);
    }
    Unserved(all, pool, pm, j);
  }

  /** The order holds if no unpruned index has a pruned child, and, unless a
      rewritten index stands in for one, only if. */
  lemma {:induction false} OrderHoldsExactly(a: Archive, rank: map<string, nat>, render: Render, roots: seq<Node>,
                          names: seq<seq<Name>>, carried: Carried, pool: seq<Job>)
    requires Ranked(a, rank) && OneBodyEach(PostAll(roots)) && RootsOf(a, rank, render, roots, |a.index|)
    requires |names| == |roots| && AllNamed(names)
    requires Carries(PlanOf(a, roots).manifests, carried) && EntriesCarried(carried, PlanOf(a, roots).entries)
    requires PoolDone(pool, Images(AllJobs(carried, PlanOf(a, roots).entries, names)))
    ensures
      var served := Served(pool + Indexes(AllJobs(carried, PlanOf(a, roots).entries, names)));
      && (NoStaleChild(PostAll(roots)) ==> served)
      && (NoStandIns(PostAll(roots)) ==> (served <==> NoStaleChild(PostAll(roots))))
  {
    hide Ranked, OneBodyEach, PlanOf, PostAll, AllJobs, Images, Indexes, Served, PoolDone, RootsOf;
    if NoStaleChild(PostAll(roots)) {
      IndexesFollowTheirChildren(a, rank, render, roots, names, carried, pool);
    } else if NoStandIns(PostAll(roots)) {
      var ns := PostAll(roots);
      var i :| 0 <= i < |ns| && IsIndex(ns[i].manifest) && !ns[i].synthesized && !NonePruned(ns[i].children);
      var j :| 0 <= j < |ns[i].children| && ns[i].children[j].synthesized;
      assert StaleChild(ns[i], j);
      StaleChildIsNeverPut(a, rank, render, roots, names, carried, pool, ns[i], j);
    }
  }

  lemma {:induction false} CarriedByCarries(ms: seq<PlanManifest>)
    ensures Carries(ms, CarriedBy(ms))
  {
    if ms != [] {
      CarriedByCarries(ms[..|ms| - 1]);
      assert ms == ms[..|ms| - 1] + [ms[|ms| - 1]];
    }
  }

  lemma {:induction false} OneRoot(a: Archive, rank: map<string, nat>, render: Render, n: Node)
    requires Ranked(a, rank) && |a.index| == 1 && Resolves(a, rank, render, a.index[0], n)
    ensures RootsOf(a, rank, render, [n], 1)
  {
    hide Resolve, Ranked;
    assert Listed(a, rank, render, 1, n);
    assert HasRoot([n], [n][0].desc.digest);
  }

  /** Some order in which the pool can finish serves every index of the plan. */
  ghost predicate CanBeServed(p: Plan, names: seq<seq<Name>>)
    requires |names| == |p.entries| && EntriesCarried(CarriedBy(p.manifests), p.entries)
  {
    exists pool :: ServedBy(AllJobs(CarriedBy(p.manifests), p.entries, names), pool)
  }

  /** The pool finishes the image jobs in this order and every index is served. */
  ghost predicate ServedBy(all: seq<Job>, pool: seq<Job>) {
    PoolDone(pool, Images(all)) && Served(pool + Indexes(all))
  }

  lemma {:induction false} NeverServed(a: Archive, rank: map<string, nat>, render: Render, roots: seq<Node>,
      names: seq<seq<Name>>)
    requires Ranked(a, rank) && OneBodyEach(PostAll(roots)) && NoStandIns(PostAll(roots))
    requires RootsOf(a, rank, render, roots, |a.index|)
    requires |names| == |PlanOf(a, roots).entries| && AllNamed(names)
    requires EntriesCarried(CarriedBy(PlanOf(a, roots).manifests), PlanOf(a, roots).entries)
    requires !NoStaleChild(PostAll(roots))
    ensures !CanBeServed(PlanOf(a, roots), names)
  {
    hide *;
    var p := PlanOf(a, roots);
    var carried := CarriedBy(p.manifests);
    CarriedByCarries(p.manifests);
    EntryCount(a, roots);
    var all := AllJobs(carried, p.entries, names);
    forall pool ensures !ServedBy(all, pool) {
      Apart(all, pool);
      if PoolDone(pool, Images(all)) { OrderHoldsExactly(a, rank, render, roots, names, carried, pool); }
    }
    CannotBeServed(p, names);
  }

  lemma {:induction false} Apart(all: seq<Job>, pool: seq<Job>)
    ensures ServedBy(all, pool) <==> PoolDone(pool, Images(all)) && Served(pool + Indexes(all))
  {
  }

  lemma {:induction false} CannotBeServed(p: Plan, names: seq<seq<Name>>)
    requires |names| == |p.entries| && EntriesCarried(CarriedBy(p.manifests), p.entries)
    requires forall pool :: !ServedBy(AllJobs(CarriedBy(p.manifests), p.entries, names), pool)
    ensures !CanBeServed(p, names)
  {
    hide ServedBy, AllJobs, CarriedBy, EntriesCarried;
  }

  lemma {:induction false} EntryCount(a: Archive, roots: seq<Node>)
    ensures |PlanOf(a, roots).entries| == |roots| && EntriesOf(PlanOf(a, roots).entries, roots)
  {
  }

  /** A plan whose digests have one body each carries all its entries list. */
  lemma {:induction false} PlanIsCarried(a: Archive, rank: map<string, nat>, render: Render, roots: seq<Node>)
    requires Ranked(a, rank) && OneBodyEach(PostAll(roots))
    ensures EntriesCarried(CarriedBy(PlanOf(a, roots).manifests), PlanOf(a, roots).entries)
  {
    hide Ranked, OneBodyEach, PostAll, AddManifests, AddAllBlobs, CarriedBy, Faithful, EntryOf;
    var p := PlanOf(a, roots);
    CarriedByCarries(p.manifests);
    EntryCount(a, roots);
    FaithfulPlan(CarriedBy(p.manifests), PostAll(roots));
    ListedIsCarried(a, rank, render, CarriedBy(p.manifests), p.entries, roots);
  }

  /** An archive that shows it: the outer index holds all its children, the inner
      one lacks one. The outer body keeps the inner index's old digest. */
  lemma {:induction false} StaleChildExample()
    returns (a: Archive, rank: map<string, nat>, render: Render, roots: seq<Node>)
    ensures Ranked(a, rank) && RootsOf(a, rank, render, roots, |a.index|)
    ensures
      var p := PlanOf(a, roots);
      && EntriesCarried(CarriedBy(p.manifests), p.entries) && p.entries != []
      && (forall names | |names| == |p.entries| && AllNamed(names) :: !CanBeServed(p, names))
  {
    hide *;
    var n: Node;
    a, rank, render, n := StaleArchive();
    roots := [n];
    OneRoot(a, rank, render, n);
    PostOfOne(n);
    PlanIsCarried(a, rank, render, roots);
    EntryCount(a, roots);
    var p := PlanOf(a, roots);
    forall names | |names| == |p.entries| && AllNamed(names)
      ensures !CanBeServed(p, names) {
      NeverServed(a, rank, render, roots, names);
    }
  }

  lemma {:induction false} PostOfOne(n: Node)
    ensures PostAll([n]) == Post(n)
  {
    assert [n][..0] == [] && PostAll([]) == [];
  }

  lemma {:induction false} StaleArchive() returns (a: Archive, rank: map<string, nat>, render: Render, n: Node)
    ensures Ranked(a, rank) && |a.index| == 1 && Resolves(a, rank, render, a.index[0], n)
    ensures OneBodyEach(Post(n)) && NoStandIns(Post(n)) && !NoStaleChild(Post(n))
  {
    var image := Manifest("", None, [], None);
    var inner := Manifest("", None, [], Some([To("i"), To("absent")]));
    var outer := Manifest("", None, [], Some([To("in")]));
    rank := map["in" := 1, "out" := 2];
    a := Archive(map["i" := Holding(image), "in" := Holding(inner), "out" := Holding(outer)], [To("out")]);
    render := (d: string, m: Manifest) => Rendered("new", 0);
    var imageNode := Node(To("i"), image, false, []);
    assert Resolve(a, rank, render, To("i")) == Present(imageNode);
    assert ResolveChildren(a, rank, render, "in", inner, 0) == Some([]);
    assert [] + [Kept(0, imageNode)] == [Kept(0, imageNode)];
    assert ResolveChildren(a, rank, render, "in", inner, 1) == Some([Kept(0, imageNode)]);
    assert ResolveChildren(a, rank, render, "in", inner, 2) == Some([Kept(0, imageNode)]);
    var pruned := Pruned(inner, [Kept(0, imageNode)]);
    var innerNode := Node(To("in").(digest := "new", size := 0), pruned, true, [imageNode]);
    assert Nodes([Kept(0, imageNode)]) == [imageNode];
    assert Resolve(a, rank, render, To("in")) == Present(innerNode);
    assert ResolveChildren(a, rank, render, "out", outer, 0) == Some([]);
    assert [] + [Kept(0, innerNode)] == [Kept(0, innerNode)];
    assert ResolveChildren(a, rank, render, "out", outer, 1) == Some([Kept(0, innerNode)]);
    assert Nodes([Kept(0, innerNode)]) == [innerNode];
    n := Node(To("out"), outer, false, [innerNode]);
    hide Resolve, ResolveChildren;
    ThreeInARow(imageNode, innerNode, n);
    assert !NonePruned(n.children);
    assert Post(n)[2] == n;
  }

  lemma {:induction false} ThreeInARow(a: Node, b: Node, c: Node)
    requires a.children == [] && b.children == [a] && c.children == [b]
    ensures Post(c) == [a, b, c]
  {
    OnlyChild(b, a);
    OnlyChild(c, b);
    assert PostAll(a.children) == [];
  }

  lemma {:induction false} OnlyChild(n: Node, child: Node)
    requires n.children == [child]
    ensures Post(n) == Post(child) + [n]
  {
    assert n.children[..0] == [] && PostAll([]) == [];
    assert PostAll(n.children) == PostAll(n.children[..0]) + Post(child);
  }

  function To(d: string): Descriptor { Descriptor("index", d, 1, false, None) }

  function Holding(m: Manifest): Blob { Blob(1, Some(Doc(m, true))) }
}
