/** The merged root filesystem as a flat map from paths to node information,
    and the path walks of rootfs/tree.go stated over it. Pure: the mutable
    tree in MergeTree.dfy is proved to refine these functions. */
module PathMap {
  type Path = seq<string>
  type Key(==, 0, !new) = nat

  datatype Kind =
    | Dir(implicit: bool)
    | File(content: Key)
    | Symlink(target: string)
    | CharDevice(major: nat, minor: nat)
    | BlockDevice(major: nat, minor: nat)
    | Fifo

  datatype Meta = Meta(perm: nat, uid: nat, gid: nat, mtime: int, xattrs: map<string, seq<nat>>)

  datatype Info = Info(kind: Kind, meta: Meta)

  type Flat = map<Path, Info>

  const MAX_SYMLINK_HOPS: nat := 40

  /** The directory newDir makes: mode 0755, no owner, marked implicit. */
  const IMPLICIT_DIR := Info(Dir(true), Meta(0x1ED, 0, 0, 0, map[]))

  predicate IsDir(f: Flat, p: Path) {
    p in f && f[p].kind.Dir?
  }

  predicate IsLink(f: Flat, p: Path) {
    p in f && f[p].kind.Symlink?
  }

  /** The parent of a path; the root is its own parent, as ".." treats it. */
  function Parent(p: Path): Path {
    if p == [] then [] else p[..|p| - 1]
  }

  /** The last component, as path.Base names it: "." for the root. */
  function Base(p: Path): string {
    if p == [] then "." else p[|p| - 1]
  }

  /** A flat map is a tree: a directory at the root, and above every entry. */
  ghost predicate WellFormed(f: Flat) {
    IsDir(f, []) && forall p {:trigger Rooted(f, p)} :: p in f ==> Rooted(f, p)
  }

  predicate Rooted(f: Flat, p: Path) {
    p != [] ==> IsDir(f, Parent(p))
  }

  /** Everything but q and what lies below it. */
  function Cut(f: Flat, q: Path): Flat {
    map p | p in f && !(q <= p) :: f[p]
  }

  /** Everything but what lies strictly below q. */
  function CutBelow(f: Flat, q: Path): Flat {
    map p | p in f && !(q < p) :: f[p]
  }

  /** A component that names an entry of a directory. */
  predicate ProperName(c: string) {
    c != "" && c != "." && c != ".." && '/' !in c
  }

  predicate ProperPath(p: Path) {
    forall i :: 0 <= i < |p| ==> ProperName(p[i])
  }

  /** strings.Split(s, "/") */
  function Split(s: string): (r: seq<string>)
    ensures |r| > 0
    ensures forall i :: 0 <= i < |r| ==> '/' !in r[i]
  {
    if s == [] then [""]
    else if s[0] == '/' then [""] + Split(s[1..])
    else
      var r := Split(s[1..]);
      [[s[0]] + r[0]] + r[1..]
  }

  predicate Absolute(s: string) {
    |s| > 0 && s[0] == '/'
  }

  /** The components a symlink target adds to the walk. */
  function TargetComponents(target: string): seq<string> {
    Split(if Absolute(target) then target[1..] else target)
  }

  datatype Walked = Reached(path: Path) | Missing | Loop

  /** resolveDir without create, from directory cur with hops links followed. */
  function Walk(f: Flat, cur: Path, comps: seq<string>, hops: nat): Walked
    requires hops <= MAX_SYMLINK_HOPS
    decreases MAX_SYMLINK_HOPS - hops, |comps|
  {
    if comps == [] then Reached(cur)
    else
      var c, rest := comps[0], comps[1..];
      if c == "" || c == "." then Walk(f, cur, rest, hops)
      else if c == ".." then Walk(f, Parent(cur), rest, hops)
      else if cur + [c] !in f then Missing
      else
        match f[cur + [c]].kind
        case Symlink(t) =>
          if hops == MAX_SYMLINK_HOPS then Loop
          else Walk(f, if Absolute(t) then [] else cur, TargetComponents(t) + rest, hops + 1)
        case Dir(_) => Walk(f, cur + [c], rest, hops)
        case _ => Missing
  }

  /** resolveDir with create: the walk and the tree it leaves, which keeps
      the directories made before a loop was found. Never Missing. */
  function CreateWalk(f: Flat, cur: Path, comps: seq<string>, hops: nat): (Flat, Walked)
    requires hops <= MAX_SYMLINK_HOPS
    decreases MAX_SYMLINK_HOPS - hops, |comps|
  {
    if comps == [] then (f, Reached(cur))
    else
      var c, rest := comps[0], comps[1..];
      if c == "" || c == "." then CreateWalk(f, cur, rest, hops)
      else if c == ".." then CreateWalk(f, Parent(cur), rest, hops)
      else if IsLink(f, cur + [c]) then
        var t := f[cur + [c]].kind.target;
        if hops == MAX_SYMLINK_HOPS then (f, Loop)
        else CreateWalk(f, if Absolute(t) then [] else cur, TargetComponents(t) + rest, hops + 1)
      else if IsDir(f, cur + [c]) then CreateWalk(f, cur + [c], rest, hops)
      else CreateWalk(f[cur + [c] := IMPLICIT_DIR], cur + [c], rest, hops)
  }

  /** resolveDir: the tree it leaves and where it ends. */
  function Run(f: Flat, cur: Path, comps: seq<string>, hops: nat, create: bool): (Flat, Walked)
    requires hops <= MAX_SYMLINK_HOPS
  {
    if create then CreateWalk(f, cur, comps, hops) else (f, Walk(f, cur, comps, hops))
  }

  /** One step of resolveDir, by the kind of the next component. */
  lemma {:induction false} RunStep(f: Flat, cur: Path, comps: seq<string>, hops: nat, create: bool)
    requires hops <= MAX_SYMLINK_HOPS && comps != []
    ensures var c, rest, q := comps[0], comps[1..], cur + [comps[0]];
      Run(f, cur, comps, hops, create) ==
      if c == "" || c == "." then Run(f, cur, rest, hops, create)
      else if c == ".." then Run(f, Parent(cur), rest, hops, create)
      else if IsLink(f, q) then
        var t := f[q].kind.target;
        if hops == MAX_SYMLINK_HOPS then (f, Loop)
        else Run(f, if Absolute(t) then [] else cur, TargetComponents(t) + rest, hops + 1, create)
      else if IsDir(f, q) then Run(f, q, rest, hops, create)
      else if create then Run(f[q := IMPLICIT_DIR], q, rest, hops, create)
      else (f, Missing)
  {
  }

  /** Every directory and every symlink of f is in g, unchanged. */
  ghost predicate Keeps(f: Flat, g: Flat) {
    forall p :: p in f && (f[p].kind.Dir? || f[p].kind.Symlink?) ==> p in g && g[p] == f[p]
  }

  /** What g adds over f, or puts in place of f's entry, is an implicit directory. */
  ghost predicate OnlyCreates(f: Flat, g: Flat) {
    forall p :: p in g && !(p in f && f[p] == g[p]) ==> g[p] == IMPLICIT_DIR
  }

  lemma {:induction false} MakeDirWellFormed(f: Flat, d: Path, c: string)
    requires WellFormed(f) && IsDir(f, d)
    ensures WellFormed(f[d + [c] := IMPLICIT_DIR])
  {
    var g := f[d + [c] := IMPLICIT_DIR];
    forall p | p in g ensures Rooted(g, p) {
      if p == d + [c] { assert Parent(p) == d; } else { assert Rooted(f, p); }
    }
  }

  /** A creating walk never removes or replaces a directory or a symlink, adds
      only implicit directories, keeps the tree well formed, and ends in a
      directory of the tree it leaves. */
  lemma {:induction false} CreateWalkGrows(f: Flat, cur: Path, comps: seq<string>, hops: nat)
    requires WellFormed(f) && IsDir(f, cur) && hops <= MAX_SYMLINK_HOPS
    ensures var (g, r) := CreateWalk(f, cur, comps, hops);
      && WellFormed(g) && Keeps(f, g) && OnlyCreates(f, g) && f.Keys <= g.Keys
      && !r.Missing? && (r.Reached? ==> IsDir(g, r.path))
    decreases MAX_SYMLINK_HOPS - hops, |comps|
  {
    if comps != [] {
      var c, rest := comps[0], comps[1..];
      var q := cur + [c];
      if c == "" || c == "." {
        CreateWalkGrows(f, cur, rest, hops);
      } else if c == ".." {
        assert Rooted(f, cur);
        CreateWalkGrows(f, Parent(cur), rest, hops);
      } else if IsLink(f, q) {
        if hops < MAX_SYMLINK_HOPS {
          var t := f[q].kind.target;
          CreateWalkGrows(f, if Absolute(t) then [] else cur, TargetComponents(t) + rest, hops + 1);
        }
      } else if IsDir(f, q) {
        CreateWalkGrows(f, q, rest, hops);
      } else {
        MakeDirWellFormed(f, cur, c);
        CreateWalkGrows(f[q := IMPLICIT_DIR], q, rest, hops);
      }
    }
  }

  /** After a creating walk succeeds, the plain walk of the same components on
      any tree that kept its directories and symlinks ends in the same place. */
  lemma {:induction false} CreatedPathIsWalkable(f: Flat, cur: Path, comps: seq<string>, hops: nat, h: Flat)
    requires WellFormed(f) && IsDir(f, cur) && hops <= MAX_SYMLINK_HOPS
    requires CreateWalk(f, cur, comps, hops).1.Reached?
    requires Keeps(CreateWalk(f, cur, comps, hops).0, h)
    ensures Walk(h, cur, comps, hops) == CreateWalk(f, cur, comps, hops).1
    decreases MAX_SYMLINK_HOPS - hops, |comps|
  {
    if comps != [] {
      var c, rest := comps[0], comps[1..];
      var q := cur + [c];
      CreateWalkGrows(f, cur, comps, hops);
      if c == "" || c == "." {
        CreatedPathIsWalkable(f, cur, rest, hops, h);
      } else if c == ".." {
        assert Rooted(f, cur);
        CreatedPathIsWalkable(f, Parent(cur), rest, hops, h);
      } else if IsLink(f, q) {
        var t := f[q].kind.target;
        CreatedPathIsWalkable(f, if Absolute(t) then [] else cur, TargetComponents(t) + rest, hops + 1, h);
      } else if IsDir(f, q) {
        CreatedPathIsWalkable(f, q, rest, hops, h);
      } else {
        MakeDirWellFormed(f, cur, c);
        CreateWalkGrows(f[q := IMPLICIT_DIR], q, rest, hops);
        CreatedPathIsWalkable(f[q := IMPLICIT_DIR], q, rest, hops, h);
      }
    }
  }

  /** A plain walk ends in a directory of the tree: ".." never leaves it. */
  lemma {:induction false} WalkStaysInside(f: Flat, cur: Path, comps: seq<string>, hops: nat)
    requires WellFormed(f) && IsDir(f, cur) && hops <= MAX_SYMLINK_HOPS
    ensures Walk(f, cur, comps, hops).Reached? ==> IsDir(f, Walk(f, cur, comps, hops).path)
    decreases MAX_SYMLINK_HOPS - hops, |comps|
  {
    if comps != [] {
      var c, rest := comps[0], comps[1..];
      var q := cur + [c];
      if c == "" || c == "." {
        WalkStaysInside(f, cur, rest, hops);
      } else if c == ".." {
        assert Rooted(f, cur);
        WalkStaysInside(f, Parent(cur), rest, hops);
      } else if IsLink(f, q) {
        if hops < MAX_SYMLINK_HOPS {
          var t := f[q].kind.target;
          WalkStaysInside(f, if Absolute(t) then [] else cur, TargetComponents(t) + rest, hops + 1);
        }
      } else if IsDir(f, q) {
        WalkStaysInside(f, q, rest, hops);
      }
    }
  }

  lemma {:induction false} PrefixCases(p: Path, t: Path)
    ensures p <= t ==> p == t || p < t
  {
    if p <= t && |p| == |t| { assert t[..|t|] == t; }
  }

  lemma {:induction false} PrefixTransitive(a: Path, b: Path, c: Path)
    requires a <= b <= c
    ensures a <= c
    ensures a < b || b < c ==> a < c
  {
    assert b == c[..|b|];
    assert a == b[..|a|] == c[..|a|];
  }

  /** Every proper ancestor of an entry is a directory. */
  lemma {:induction false} AncestorIsDir(f: Flat, q: Path, p: Path)
    requires WellFormed(f) && p in f && q < p
    ensures IsDir(f, q)
    decreases |p|
  {
    assert Rooted(f, p);
    if Parent(p) != q {
      assert q < Parent(p);
      AncestorIsDir(f, q, Parent(p));
    }
  }
}
