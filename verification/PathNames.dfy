/** Paths as strings: what strings.Split of rootfs/tree.go and rootfs/fs.go makes of
    names joined with slashes, and so where a symlink with such a target leads. */
module PathNames {
  import opened PathMap
  import opened FsWalker

  /** Names with slashes between them. */
  function Join(cs: seq<string>): string {
    if cs == [] then "" else if |cs| == 1 then cs[0] else cs[0] + "/" + Join(cs[1..])
  }

  predicate NoSlash(cs: seq<string>) {
    forall i :: 0 <= i < |cs| ==> '/' !in cs[i]
  }

  /** Every string is its components joined. */
  lemma {:induction false} JoinSplit(s: string)
    ensures Join(Split(s)) == s
  {
    if s != "" {
      JoinSplit(s[1..]);
      var r := Split(s[1..]);
      if s[0] == '/' {
        assert ([""] + r)[1..] == r;
      } else {
        assert ([[s[0]] + r[0]] + r[1..])[1..] == r[1..];
      }
    }
  }

  lemma {:induction false} SplitWord(w: string, s: string)
    requires '/' !in w
    ensures Split(w) == [w] && Split(w + "/" + s) == [w] + Split(s)
  {
    if w == "" {
      assert ("/" + s)[1..] == s;
    } else {
      SplitWord(w[1..], s);
      assert (w + "/" + s)[1..] == w[1..] + "/" + s;
      assert [w[0]] + w[1..] == w;
    }
  }

  /** Names without slashes are the components of what they join to. */
  lemma {:induction false} SplitJoin(cs: seq<string>)
    requires cs != [] && NoSlash(cs)
    ensures Split(Join(cs)) == cs
  {
    hide Split;
    if |cs| == 1 {
      SplitWord(cs[0], "");
    } else {
      SplitJoin(cs[1..]);
      SplitWord(cs[0], Join(cs[1..]));
      assert cs == [cs[0]] + cs[1..];
    }
  }

  // ---- Where a symlink leads ----------------------------------------------

  /** The target of a link: names joined with slashes, from the root if the first
      character is one. Every string is one of these, and in one way only. */
  predicate Spells(target: string, absolute: bool, cs: seq<string>) {
    && cs != [] && NoSlash(cs)
    && target == (if absolute then "/" else "") + Join(cs)
    && (absolute || cs[0] != "" || |cs| == 1)
  }

  lemma {:induction false} TargetOf(target: string, absolute: bool, cs: seq<string>)
    requires Spells(target, absolute, cs)
    ensures Absolute(target) == absolute && TargetComponents(target) == cs
  {
    SplitJoin(cs);
    if absolute { assert target[1..] == Join(cs); }
    else { assert target == Join(cs); }
  }

  lemma {:induction false} EveryTargetIsSpelled(target: string) returns (absolute: bool, cs: seq<string>)
    ensures Spells(target, absolute, cs)
  {
    absolute := target != "" && target[0] == '/';
    var names := if absolute then target[1..] else target;
    assert target == (if absolute then "/" else "") + names;
    cs := Split(names);
    JoinSplit(names);
    hide Split;
    if !absolute { FirstName(names); }
  }

  /** A string that begins with no slash begins with a name. */
  lemma {:induction false} FirstName(s: string)
    requires s == "" || s[0] != '/'
    ensures Split(s)[0] != "" || |Split(s)| == 1
  {
  }

  /** A name that is a symlink is the names of its target in its place, from the
      root if the target begins with a slash, and one more link followed; past the
      fortieth link the walk is a loop. All three walks say so. */
  lemma {:induction false} LinkStandsForItsTarget(f: Flat, d: Path, c: string, absolute: bool, cs: seq<string>,
      rest: seq<string>, hops: nat)
    requires ProperName(c) && IsLink(f, d + [c]) && Spells(f[d + [c]].kind.target, absolute, cs) && hops <= 40
    ensures var from := if absolute then [] else d;
      if hops == 40 then
        && Walk(f, d, [c] + rest, hops) == Loop
        && CreateWalk(f, d, [c] + rest, hops) == (f, Loop)
        && LeadsTo(f, d, [c] + rest, hops) == Cyclic
      else
        && Walk(f, d, [c] + rest, hops) == Walk(f, from, cs + rest, hops + 1)
        && CreateWalk(f, d, [c] + rest, hops) == CreateWalk(f, from, cs + rest, hops + 1)
        && LeadsTo(f, d, [c] + rest, hops) == LeadsTo(f, from, cs + rest, hops + 1)
  {
    hide TargetComponents, Absolute, Spells;
    TargetOf(f[d + [c]].kind.target, absolute, cs);
    assert ([c] + rest)[1..] == rest;
  }

  /** No symlink lies strictly below d on the way to d + ns. */
  ghost predicate NoLinkOnTheWay(f: Flat, d: Path, ns: Path) {
    forall q :: d < q <= d + ns ==> !IsLink(f, q)
  }

  lemma {:induction false} OnTheWay(f: Flat, d: Path, ns: Path)
    requires ns != [] && NoLinkOnTheWay(f, d, ns)
    ensures !IsLink(f, d + [ns[0]]) && NoLinkOnTheWay(f, d + [ns[0]], ns[1..])
    ensures d + [ns[0]] + ns[1..] == d + ns
  {
    var q, goal := d + [ns[0]], d + ns;
    assert q + ns[1..] == goal;
    assert d < q <= goal;
    forall x | q < x <= q + ns[1..] ensures !IsLink(f, x) {
      PrefixTransitive(d, q, x);
      assert d < x <= d + ns;
    }
  }

  /** Names that meet no symlink are walked one below the other, whatever is left
      to walk after them. */
  lemma {:induction false} WalkAlong(f: Flat, d: Path, ns: Path, rest: seq<string>, hops: nat)
    requires WellFormed(f) && IsDir(f, d) && ProperPath(ns) && NoLinkOnTheWay(f, d, ns) && hops <= 40
    requires IsDir(f, d + ns)
    ensures Walk(f, d, ns + rest, hops) == Walk(f, d + ns, rest, hops)
    ensures CreateWalk(f, d, ns + rest, hops) == CreateWalk(f, d + ns, rest, hops)
    ensures LeadsTo(f, d, ns + rest, hops) == LeadsTo(f, d + ns, rest, hops)
    decreases |ns|
  {
    if ns == [] {
      assert d + ns == d && ns + rest == rest;
    } else {
      var q := d + [ns[0]];
      OnTheWay(f, d, ns);
      PrefixCases(q, d + ns);
      if q < d + ns { AncestorIsDir(f, q, d + ns); }
      WalkAlong(f, q, ns[1..], rest, hops);
      assert (ns + rest)[1..] == ns[1..] + rest;
    }
  }

  /** A symlink to a directory by proper names that meet no further symlink leads
      into that directory, below the link's own parent or below the root. */
  lemma {:induction false} LinkLeadsToItsTarget(f: Flat, d: Path, c: string, absolute: bool, ns: Path,
      rest: seq<string>, hops: nat)
    requires WellFormed(f) && IsDir(f, d) && ProperName(c) && d + [c] in f && ProperPath(ns) && ns != []
    requires f[d + [c]].kind == Symlink((if absolute then "/" else "") + Join(ns)) && hops < 40
    requires var from := if absolute then [] else d; NoLinkOnTheWay(f, from, ns) && IsDir(f, from + ns)
    ensures var goal := (if absolute then [] else d) + ns;
      && Walk(f, d, [c] + rest, hops) == Walk(f, goal, rest, hops + 1)
      && CreateWalk(f, d, [c] + rest, hops) == CreateWalk(f, goal, rest, hops + 1)
      && LeadsTo(f, d, [c] + rest, hops) == LeadsTo(f, goal, rest, hops + 1)
  {
    hide Walk, CreateWalk, LeadsTo;
    assert ProperName(ns[0]);
    LinkStandsForItsTarget(f, d, c, absolute, ns, rest, hops);
    WalkAlong(f, if absolute then [] else d, ns, rest, hops + 1);
  }

  /** The links d/ns[0], d/ns[1], ... each name the next; the last name is no link. */
  ghost predicate Chain(f: Flat, d: Path, ns: seq<string>) {
    && ns != [] && ProperPath(ns) && !IsLink(f, d + [ns[|ns| - 1]])
    && forall i :: 0 <= i < |ns| - 1 ==> d + [ns[i]] in f && f[d + [ns[i]]].kind == Symlink(ns[i + 1])
  }

  /** Forty links in a row are followed, to a directory or to anything else; one
      more is a loop, whatever the last one names. */
  lemma {:induction false} FortyLinks(f: Flat, d: Path, ns: seq<string>, hops: nat)
    requires Chain(f, d, ns) && hops <= 40
    ensures var last := d + [ns[|ns| - 1]];
      if hops + |ns| - 1 > 40 then
        Walk(f, d, [ns[0]], hops) == Loop && LeadsTo(f, d, [ns[0]], hops) == Cyclic
      else
        && Walk(f, d, [ns[0]], hops) == (if IsDir(f, last) then Reached(last) else Missing)
        && LeadsTo(f, d, [ns[0]], hops) == (if last in f then Found(last) else NothingThere)
    decreases |ns|
  {
    assert ProperName(ns[0]);
    if |ns| > 1 {
      assert ProperName(ns[1]);
      assert f[d + [ns[0]]].kind == Symlink(ns[1]);
      assert Join([ns[1]]) == ns[1];
      assert Spells(ns[1], false, [ns[1]]);
      LinkStandsForItsTarget(f, d, ns[0], false, [ns[1]], [], hops);
      assert [ns[0]] + [] == [ns[0]] && [ns[1]] + [] == [ns[1]];
      if hops < 40 {
        assert Chain(f, d, ns[1..]);
        FortyLinks(f, d, ns[1..], hops + 1);
      }
    } else {
      EndOfTheChain(f, d, ns[0], hops);
    }
  }

  lemma {:induction false} EndOfTheChain(f: Flat, d: Path, c: string, hops: nat)
    requires ProperName(c) && !IsLink(f, d + [c]) && hops <= 40
    ensures Walk(f, d, [c], hops) == if IsDir(f, d + [c]) then Reached(d + [c]) else Missing
    ensures LeadsTo(f, d, [c], hops) == if d + [c] in f then Found(d + [c]) else NothingThere
  {
    var none: seq<string> := [];
    assert [c][1..] == none;
    assert !HasComponent(none);
    assert Walk(f, d + [c], none, hops) == Reached(d + [c]);
    assert LeadsTo(f, d + [c], none, hops) == Found(d + [c]);
  }
}
