/** The changeset rules of the OCI image specification (layer.md, sections
    "Applying Changesets", "Whiteouts" and "Opaque Whiteout"), stated on the
    flat path map without walking it, and the proof that Builder.Apply follows
    them for layers whose paths cross no symlink. */
module LayerRules {
  import opened PathMap
  import opened Merge

  function Prefixes(t: Path): set<Path> {
    set i | 0 <= i <= |t| :: t[..i]
  }

  /** Every path up to t is a directory: what is missing or is something else
      becomes an implicit one. */
  function WithDirs(f: Flat, t: Path): Flat {
    map p | p in f.Keys + Prefixes(t) :: if p <= t && !IsDir(f, p) then IMPLICIT_DIR else f[p]
  }

  /** An added or changed entry: its parents become directories, what was below
      it goes unless a directory is placed over a directory. */
  function RulePlace(f: Flat, path: Path, info: Info): Flat {
    var keep := info.kind.Dir? && IsDir(f, path);
    map p | p in f.Keys + Prefixes(path) && (path < p ==> keep) ::
      if p == path then info
      else if p < path && !IsDir(f, p) then IMPLICIT_DIR
      else f[p]
  }

  /** A whiteout removes a path and everything below it. */
  function RuleErase(f: Flat, path: Path): Flat {
    map p | p in f && !(path <= p) :: f[p]
  }

  /** An opaque whiteout removes everything strictly below a directory. */
  function RuleClear(f: Flat, path: Path): Flat {
    map p | p in f && !(path < p) :: f[p]
  }

  function RuleEraseStep(f: Flat, e: Entry): Flat {
    match e.action
    case Whiteout => if e.path == [] then f else RuleErase(f, e.path)
    case Opaque => RuleClear(f, e.path)
    case _ => f
  }

  function RulePlaceStep(f: Flat, e: Entry): Flat {
    match e.action
    case Place(info) => if e.path == [] then f else RulePlace(f, e.path, info)
    case HardLink(t, m) =>
      if t in f && !f[t].kind.Dir? then RulePlace(f, e.path, Info(f[t].kind, m)) else f
    case _ => f
  }

  /** What is left out of the tree, and why: an entry that is not a directory at the
      root, a hard link to nothing or to a directory, and what was left out already. */
  function RuleOutcome(f: Flat, e: Entry): Outcome {
    match e.action
    case Place(info) => if e.path == [] && !info.kind.Dir? then Refused("root is not a directory") else Done
    case HardLink(t, _) =>
      if t !in f then Refused("hard link target not found")
      else if f[t].kind.Dir? then Refused("hard link to a directory") else Done
    case Skip(reason) => Refused(reason)
    case _ => Done
  }

  function RuleEraseAll(f: Flat, es: seq<Entry>): Flat {
    if es == [] then f else RuleEraseStep(RuleEraseAll(f, es[..|es| - 1]), es[|es| - 1])
  }

  function RulePlaceAll(f: Flat, es: seq<Entry>): Flat {
    if es == [] then f else RulePlaceStep(RulePlaceAll(f, es[..|es| - 1]), es[|es| - 1])
  }

  /** A layer under the rules: a whiteout never touches its own layer. */
  function RuleLayer(f: Flat, es: seq<Entry>): Flat {
    RulePlaceAll(RuleEraseAll(f, es), es)
  }

  // ---- The hypothesis -------------------------------------------------

  /** No symlink at p or above it. */
  ghost predicate LinkFree(f: Flat, p: Path) {
    forall q :: [] < q <= p ==> !IsLink(f, q)
  }

  /** What a whiteout or opaque marker names is reached without a symlink in the
      tree as it is when its turn comes. */
  ghost predicate ErasesPlainly(f: Flat, e: Entry) {
    match e.action
    case Whiteout => ProperPath(Parent(e.path)) && LinkFree(f, Parent(e.path))
    case Opaque => ProperPath(e.path) && LinkFree(f, e.path)
    case _ => true
  }

  /** So are the parents of an entry that is placed and of a hard link's target.
      A hard link at the root has nothing to copy. */
  ghost predicate PlacesPlainly(f: Flat, e: Entry) {
    match e.action
    case Place(_) => ProperPath(e.path) && LinkFree(f, Parent(e.path))
    case HardLink(t, _) =>
      && ProperPath(e.path) && LinkFree(f, Parent(e.path)) && ProperPath(t) && LinkFree(f, Parent(t))
      && (e.path == [] && t in f ==> f[t].kind.Dir?)
    case _ => true
  }

  /** Each entry of the layer in its turn, under the rules. */
  ghost predicate CrossesNoLink(f: Flat, es: seq<Entry>) {
    && (forall i :: 0 <= i < |es| ==> ErasesPlainly(RuleEraseAll(f, es[..i]), es[i]))
    && (forall i :: 0 <= i < |es| ==> PlacesPlainly(RulePlaceAll(RuleEraseAll(f, es), es[..i]), es[i]))
  }

  // ---- Walks that cross no symlink ------------------------------------

  lemma {:induction false} PrefixOfAppend(cur: Path, c: string, p: Path)
    ensures p <= cur + [c] <==> p <= cur || p == cur + [c]
    ensures p < cur + [c] <==> p <= cur
  {
    if p <= cur + [c] && p != cur + [c] { assert p == (cur + [c])[..|p|] == cur[..|p|]; }
  }

  lemma {:induction false} InPrefixes(t: Path, p: Path)
    ensures p in Prefixes(t) <==> p <= t
  {
    if p <= t { assert p == t[..|p|]; }
  }

  lemma {:induction false} WithDirsStep(f: Flat, q: Path, t: Path)
    requires q <= t && !IsDir(f, q)
    ensures WithDirs(f[q := IMPLICIT_DIR], t) == WithDirs(f, t)
  {
    forall p ensures p in Prefixes(t) <==> p <= t { InPrefixes(t, p); }
  }

  lemma {:induction false} CreateWalkPlain(f: Flat, cur: Path, comps: seq<string>)
    requires WellFormed(f) && IsDir(f, cur) && ProperPath(comps)
    requires forall q :: cur < q <= cur + comps ==> !IsLink(f, q)
    ensures CreateWalk(f, cur, comps, 0) == (WithDirs(f, cur + comps), Reached(cur + comps))
    decreases |comps|
  {
    var t := cur + comps;
    forall p ensures p in Prefixes(t) <==> p <= t { InPrefixes(t, p); }
    if comps == [] {
      assert t == cur;
      forall p | p <= cur ensures IsDir(f, p) {
        PrefixCases(p, cur);
        if p < cur { AncestorIsDir(f, p, cur); }
      }
      assert WithDirs(f, t) == f;
    } else {
      var c, rest := comps[0], comps[1..];
      var q := cur + [c];
      assert q + rest == t;
      assert cur < q <= cur + comps && !IsLink(f, q);
      var g := if IsDir(f, q) then f else f[q := IMPLICIT_DIR];
      if !IsDir(f, q) {
        MakeDirWellFormed(f, cur, c);
        WithDirsStep(f, q, t);
      }
      forall x | q < x <= t ensures !IsLink(g, x) {
          PrefixTransitive(cur, q, x);
          assert cur < x <= cur + comps && !IsLink(f, x);
        }
      CreateWalkPlain(g, q, rest);
    }
  }

  /** A plain walk along a path without symlinks reaches it exactly when it is
      a directory, and never loops. */
  lemma {:induction false} WalkPlain(f: Flat, cur: Path, comps: seq<string>)
    requires WellFormed(f) && IsDir(f, cur) && ProperPath(comps)
    requires forall q :: cur < q <= cur + comps ==> !IsLink(f, q)
    ensures Walk(f, cur, comps, 0) == if IsDir(f, cur + comps) then Reached(cur + comps) else Missing
    decreases |comps|
  {
    var t := cur + comps;
    if comps == [] {
      assert t == cur;
    } else {
      var c, rest := comps[0], comps[1..];
      var q := cur + [c];
      assert q + rest == t;
      assert cur < q <= cur + comps && !IsLink(f, q);
      if IsDir(f, q) {
        forall x | q < x <= t ensures !IsLink(f, x) {
          PrefixTransitive(cur, q, x);
          assert cur < x <= cur + comps && !IsLink(f, x);
        }
        WalkPlain(f, q, rest);
      } else if IsDir(f, t) {
        PrefixCases(q, t);
        AncestorIsDir(f, q, t);
      }
    }
  }

  // ---- Each step follows its rule -------------------------------------

  lemma {:induction false} PlaceFollowsRule(f: Flat, path: Path, info: Info)
    requires WellFormed(f) && path != [] && ProperPath(path)
    requires LinkFree(f, Parent(path))
    ensures SetUnder(f, path, info) == (RulePlace(f, path, info), Done)
  {
    var d := Parent(path);
    assert [] + d == d && path == d + [Base(path)];
    CreateWalkPlain(f, [], d);
    hide CreateWalk, WellFormed, ProperPath, LinkFree, Prefixes;
    PlacedIsRule(f, d, Base(path), info);
  }

  /** Setting an entry once its parents are directories is the rule for it. */
  lemma {:induction false} PlacedIsRule(f: Flat, d: Path, c: string, info: Info)
    ensures SetAt(WithDirs(f, d), d + [c], info) == RulePlace(f, d + [c], info)
  {
    var path, g := d + [c], WithDirs(f, d);
    forall p ensures p in Prefixes(d) <==> p <= d { InPrefixes(d, p); }
    forall p ensures (p in Prefixes(path) <==> p <= d || p == path) && (p < path <==> p <= d) {
      InPrefixes(path, p);
      PrefixOfAppend(d, c, p);
    }
    hide Prefixes;
    assert IsDir(g, path) == IsDir(f, path);
    var h, r := SetAt(g, path, info), RulePlace(f, path, info);
    forall p ensures p in h <==> p in r { PrefixCases(path, p); }
    forall p | p in h ensures h[p] == r[p] { PrefixCases(p, path); PrefixCases(path, p); }
    assert h.Keys == r.Keys;
    assert h == r;
  }

  lemma {:induction false} EraseStepFollowsRule(f: Flat, e: Entry)
    requires WellFormed(f) && ErasesPlainly(f, e)
    ensures EraseStep(f, e) == (RuleEraseStep(f, e), Done)
  {
    match e.action {
      case Whiteout =>
        if e.path != [] {
          var d := Parent(e.path);
          assert [] + d == d && e.path == d + [Base(e.path)];
          WalkPlain(f, [], d);
          if !IsDir(f, d) {
            forall p | p in f ensures !(e.path <= p) {
              if e.path <= p { assert d < p; AncestorIsDir(f, d, p); }
            }
            assert RuleErase(f, e.path) == f;
          }
        }
      case Opaque =>
        assert [] + e.path == e.path;
        WalkPlain(f, [], e.path);
        if !IsDir(f, e.path) {
          forall p | p in f ensures !(e.path < p) {
            if e.path < p { AncestorIsDir(f, e.path, p); }
          }
          assert RuleClear(f, e.path) == f;
        }
      case _ =>
    }
  }

  lemma {:induction false} LookupPlain(f: Flat, t: Path)
    requires WellFormed(f) && ProperPath(t) && LinkFree(f, Parent(t))
    ensures Lookup(f, t) == if t in f then Hit(f[t]) else NoEntry
  {
    if t != [] {
      var d := Parent(t);
      assert [] + d == d && t == d + [Base(t)];
      WalkPlain(f, [], d);
      if t in f { assert Rooted(f, t); }
    }
  }

  lemma {:induction false} PlaceStepFollowsRule(f: Flat, e: Entry)
    requires WellFormed(f) && PlacesPlainly(f, e)
    ensures PlaceStep(f, e) == (RulePlaceStep(f, e), RuleOutcome(f, e))
  {
    match e.action {
      case Place(info) => if e.path != [] { PlaceFollowsRule(f, e.path, info); }
      case HardLink(t, m) =>
        LookupPlain(f, t);
        if t in f && !f[t].kind.Dir? { PlaceFollowsRule(f, e.path, Info(f[t].kind, m)); }
      case _ =>
    }
  }

  lemma {:induction false} EraseAllFollowsRules(f: Flat, es: seq<Entry>)
    requires WellFormed(f) && forall i :: 0 <= i < |es| ==> ErasesPlainly(RuleEraseAll(f, es[..i]), es[i])
    ensures EraseAll(f, es) == RuleEraseAll(f, es)
  {
    hide ErasesPlainly;
    if es != [] {
      var init, e := es[..|es| - 1], es[|es| - 1];
      assert forall i :: 0 <= i < |init| ==> init[..i] == es[..i];
      EraseAllFollowsRules(f, init);
      EraseAllWellFormed(f, init);
      EraseStepFollowsRule(EraseAll(f, init), e);
    }
  }

  lemma {:induction false} PlaceAllFollowsRules(f: Flat, es: seq<Entry>)
    requires WellFormed(f) && forall i :: 0 <= i < |es| ==> PlacesPlainly(RulePlaceAll(f, es[..i]), es[i])
    ensures PlaceAll(f, es) == RulePlaceAll(f, es)
  {
    hide PlacesPlainly;
    if es != [] {
      var init, e := es[..|es| - 1], es[|es| - 1];
      assert forall i :: 0 <= i < |init| ==> init[..i] == es[..i];
      PlaceAllFollowsRules(f, init);
      PlaceAllWellFormed(f, init);
      PlaceStepFollowsRule(PlaceAll(f, init), e);
    }
  }

  /** Applying a layer whose paths cross no symlink that is there when their turn
      comes is exactly what the changeset rules say. */
  lemma {:induction false} LayerFollowsRules(f: Flat, es: seq<Entry>)
    requires WellFormed(f) && CrossesNoLink(f, es)
    ensures ApplyLayer(f, es) == RuleLayer(f, es)
  {
    EraseAllFollowsRules(f, es);
    EraseAllWellFormed(f, es);
    PlaceAllFollowsRules(EraseAll(f, es), es);
  }
}
