/** From tar headers to entries (cleanPath and convert of rootfs/layer.go), and
    what that guarantees about the names in the merged tree. */
module LayerEntries {
  import opened PathMap
  import opened Merge
  import opened StoredTree
  import opened FsWalker

  const WHITEOUT_PREFIX := ".wh."
  const OPAQUE_WHITEOUT := ".wh..wh..opq"

  datatype Flag = Reg | Cont | GnuSparse | DirFlag | SymlinkFlag | LinkFlag | CharFlag | BlockFlag | FifoFlag | OtherFlag

  /** The fields of a tar header that convert reads. */
  datatype Header = Header(name: string, flag: Flag, linkname: string, mode: int, uid: int, gid: int, mtime: int,
                           major: int, minor: int, xattrs: map<string, seq<nat>>, paxSparse: bool)

  /** path.Clean of a relative name: ups counts the ".." that climb out. */
  function CleanRelative(ups: nat, done: Path, comps: seq<string>): (nat, Path)
    decreases |comps|
  {
    if comps == [] then (ups, done)
    else if comps[0] == "" || comps[0] == "." then CleanRelative(ups, done, comps[1..])
    else if comps[0] == ".." then
      if done == [] then CleanRelative(ups + 1, [], comps[1..]) else CleanRelative(ups, Parent(done), comps[1..])
    else CleanRelative(ups, done + [comps[0]], comps[1..])
  }

  /** cleanPath: the path below the root, and whether it stays inside; one that does
      not keeps its leading "..". */
  function CleanPath(name: string): (Path, bool) {
    if Absolute(name) then (Clean(name), true)
    else
      var (ups, p) := CleanRelative(0, [], Split(name));
      (Dots(ups) + p, ups == 0)
  }

  function Dots(n: nat): Path {
    seq(n, _ => "..")
  }

  function ClampUint(n: int): nat {
    if n < 0 then 0 else n
  }

  function Convert(h: Header, content: Key): Entry {
    var (p, ok) := CleanPath(h.name);
    var meta := Meta(h.mode % 0x1000, ClampUint(h.uid), ClampUint(h.gid), h.mtime, h.xattrs);
    if !ok then Entry.Entry(p, Skip("path escapes the root"))
    else if h.flag.GnuSparse? || h.paxSparse then Entry.Entry(p, Skip("sparse file"))
    else if p != [] && WHITEOUT_PREFIX <= Base(p) then
      if Base(p) == OPAQUE_WHITEOUT then Entry.Entry(Parent(p), Opaque)
      else
        var name := Base(p)[|WHITEOUT_PREFIX|..];
        if name == "" then Entry.Entry(p, Skip("whiteout without a name"))
        else Entry.Entry(Parent(p) + [name], Whiteout)
    else
      match h.flag
      case Reg => Entry.Entry(p, Place(Info(File(content), meta)))
      case Cont => Entry.Entry(p, Place(Info(File(content), meta)))
      case DirFlag => Entry.Entry(p, Place(Info(Dir(false), meta)))
      case SymlinkFlag => Entry.Entry(p, Place(Info(Symlink(h.linkname), meta)))
      case LinkFlag =>
        var (t, inside) := CleanPath(h.linkname);
        if inside then Entry.Entry(p, HardLink(t, meta))
        else Entry.Entry(p, Skip("hard link target escapes the root"))
      case CharFlag => Entry.Entry(p, Place(Info(CharDevice(ClampUint(h.major), ClampUint(h.minor)), meta)))
      case BlockFlag => Entry.Entry(p, Place(Info(BlockDevice(ClampUint(h.major), ClampUint(h.minor)), meta)))
      case FifoFlag => Entry.Entry(p, Place(Info(Fifo, meta)))
      case _ => Entry.Entry(p, Skip("unsupported type"))
  }

  // ---- Legal names -----------------------------------------------------

  predicate LegalPath(p: Path) {
    forall i :: 0 <= i < |p| ==> LegalName(p[i])
  }

  predicate NoNul(s: string) {
    '\0' !in s
  }

  /** Components that come out of Split of a string without NUL. */
  predicate Plain(comps: seq<string>) {
    forall i :: 0 <= i < |comps| ==> '/' !in comps[i] && NoNul(comps[i])
  }

  ghost predicate LegalTree(f: Flat) {
    forall p :: p in f ==> LegalPath(p) && (f[p].kind.Symlink? ==> NoNul(f[p].kind.target))
  }

  /** An entry whose names a directory object accepts. */
  predicate LegalEntry(e: Entry) {
    match e.action
    case Place(info) => LegalPath(e.path) && (info.kind.Symlink? ==> NoNul(info.kind.target))
    case HardLink(_, _) => LegalPath(e.path)
    case _ => true
  }

  /** A hard link at the root with something to copy: its copy is hung in the
      root under the name ".". */
  predicate HangsDot(f: Flat, e: Entry) {
    && e.action.HardLink? && e.path == []
    && Lookup(f, e.action.target).Hit? && !Lookup(f, e.action.target).info.kind.Dir?
  }

  lemma {:induction false} SplitIsPlain(s: string)
    requires NoNul(s)
    ensures Plain(Split(s))
  {
    if s != "" { SplitIsPlain(s[1..]); }
  }

  lemma {:induction false} CleanComponentsLegal(done: Path, comps: seq<string>)
    requires LegalPath(done) && Plain(comps)
    ensures LegalPath(CleanComponents(done, comps))
    decreases |comps|
  {
    if comps != [] {
      var c := comps[0];
      if c == "" || c == "." { CleanComponentsLegal(done, comps[1..]); }
      else if c == ".." { CleanComponentsLegal(Parent(done), comps[1..]); }
      else { CleanComponentsLegal(done + [c], comps[1..]); }
    }
  }

  lemma {:induction false} CleanRelativeLegal(ups: nat, done: Path, comps: seq<string>)
    requires LegalPath(done) && Plain(comps)
    ensures LegalPath(CleanRelative(ups, done, comps).1)
    decreases |comps|
  {
    if comps != [] {
      var c := comps[0];
      if c == "" || c == "." { CleanRelativeLegal(ups, done, comps[1..]); }
      else if c == ".." {
        if done == [] { CleanRelativeLegal(ups + 1, [], comps[1..]); }
        else { CleanRelativeLegal(ups, Parent(done), comps[1..]); }
      }
      else { CleanRelativeLegal(ups, done + [c], comps[1..]); }
    }
  }

  lemma {:induction false} CleanPathLegal(name: string)
    requires NoNul(name)
    ensures CleanPath(name).1 ==> LegalPath(CleanPath(name).0)
  {
    SplitIsPlain(name);
    CleanComponentsLegal([], Split(name));
    CleanRelativeLegal(0, [], Split(name));
  }

  /** A link header whose cleaned name is the root and whose target is inside. */
  predicate LinksAtRoot(h: Header) {
    h.flag.LinkFlag? && !h.paxSparse && CleanPath(h.name) == ([], true) && CleanPath(h.linkname).1
  }

  /** Every header without NUL in its names becomes an entry with legal names, and
      exactly a link header at the root becomes a hard link there. */
  lemma {:induction false} ConvertIsLegal(h: Header, content: Key)
    requires NoNul(h.name) && NoNul(h.linkname)
    ensures LegalEntry(Convert(h, content))
    ensures Convert(h, content).action.HardLink? && Convert(h, content).path == [] <==> LinksAtRoot(h)
  {
    CleanPathLegal(h.name);
  }

  // ---- The name "." ------------------------------------------------------

  const DOT: Path := ["."]

  /** What merging leaves of a tree: every name is legal, except that something
      other than a directory may hang in the root under the name ".". */
  ghost predicate NearlyLegal(f: Flat) {
    forall p :: p in f ==>
      && (LegalPath(p) || (p == DOT && !f[p].kind.Dir?))
      && (f[p].kind.Symlink? ==> NoNul(f[p].kind.target))
  }

  lemma {:induction false} LegalExactly(f: Flat)
    ensures LegalTree(f) <==> NearlyLegal(f) && DOT !in f
  {
    assert DOT[0] == "." && !LegalPath(DOT);
  }

  lemma {:induction false} NotDot(p: Path, c: string)
    requires LegalName(c)
    ensures !(p + [c] <= DOT)
  {
    AtOrAboveDot(p, c);
  }

  lemma {:induction false} CreateWalkNearly(f: Flat, cur: Path, comps: seq<string>, hops: nat)
    requires NearlyLegal(f) && LegalPath(cur) && Plain(comps) && hops <= MAX_SYMLINK_HOPS
    ensures NearlyLegal(CreateWalk(f, cur, comps, hops).0)
    ensures DOT in CreateWalk(f, cur, comps, hops).0 <==> DOT in f
    ensures CreateWalk(f, cur, comps, hops).1.Reached? ==> LegalPath(CreateWalk(f, cur, comps, hops).1.path)
    decreases MAX_SYMLINK_HOPS - hops, |comps|
  {
    if comps != [] {
      var c, rest := comps[0], comps[1..];
      var q := cur + [c];
      if c == "" || c == "." { CreateWalkNearly(f, cur, rest, hops); }
      else if c == ".." { CreateWalkNearly(f, Parent(cur), rest, hops); }
      else if IsLink(f, q) {
        if hops < MAX_SYMLINK_HOPS {
          var t := f[q].kind.target;
          SplitIsPlain(if Absolute(t) then t[1..] else t);
          CreateWalkNearly(f, if Absolute(t) then [] else cur, TargetComponents(t) + rest, hops + 1);
        }
      }
      else if IsDir(f, q) { CreateWalkNearly(f, q, rest, hops); }
      else {
        NotDot(cur, c);
        CreateWalkNearly(f[q := IMPLICIT_DIR], q, rest, hops);
      }
    }
  }

  lemma {:induction false} SetUnderNearly(f: Flat, p: Path, info: Info)
    requires NearlyLegal(f) && LegalPath(p) && (info.kind.Symlink? ==> NoNul(info.kind.target))
    requires p == [] ==> !info.kind.Dir?
    ensures NearlyLegal(SetUnder(f, p, info).0)
    ensures DOT in SetUnder(f, p, info).0 <==> DOT in f || p == []
  {
    if p == [] {
      DotIsHung(f, info);
    } else {
      CreateWalkNearly(f, [], Parent(p), 0);
      var (g, r) := CreateWalk(f, [], Parent(p), 0);
      if r.Reached? { NotDot(r.path, Base(p)); }
    }
  }

  lemma {:induction false} DotIsHung(f: Flat, info: Info)
    ensures SetUnder(f, [], info) == (SetAt(f, DOT, info), Done)
    ensures DOT in SetUnder(f, [], info).0
  {
    assert [] + DOT == DOT;
  }

  /** A whiteout of the name "." in the root, or an opaque marker on the root, is
      what takes it away. */
  ghost predicate TakesDot(f: Flat, e: Entry) {
    match e.action
    case Whiteout => e.path != [] && Base(e.path) == "." && Walk(f, [], Parent(e.path), 0) == Reached([])
    case Opaque => Walk(f, [], e.path, 0) == Reached([])
    case _ => false
  }

  /** What one entry of either pass does about the name ".". */
  lemma {:induction false} StepsNearly(f: Flat, e: Entry)
    requires NearlyLegal(f) && LegalEntry(e)
    ensures NearlyLegal(EraseStep(f, e).0) && (DOT in EraseStep(f, e).0 <==> DOT in f && !TakesDot(f, e))
    ensures NearlyLegal(PlaceStep(f, e).0) && (DOT in PlaceStep(f, e).0 <==> DOT in f || HangsDot(f, e))
  {
    match e.action {
      case Place(info) => if e.path != [] { SetUnderNearly(f, e.path, info); }
      case HardLink(t, m) =>
        var r := Lookup(f, t);
        if r.Hit? && !r.info.kind.Dir? { SetUnderNearly(f, e.path, Info(r.info.kind, m)); }
      case Whiteout =>
        if e.path != [] && Walk(f, [], Parent(e.path), 0).Reached? {
          AtOrAboveDot(Walk(f, [], Parent(e.path), 0).path, Base(e.path));
        }
      case Opaque =>
        if Walk(f, [], e.path, 0).Reached? { AboveDot(Walk(f, [], e.path, 0).path); }
      case _ =>
    }
  }

  lemma {:induction false} AtOrAboveDot(d: Path, c: string)
    ensures d + [c] <= DOT <==> d == [] && c == "."
  {
    if d + [c] <= DOT { assert (d + [c])[|d|] == DOT[|d|]; }
  }

  lemma {:induction false} AboveDot(d: Path)
    ensures d < DOT <==> d == []
  {
  }

  /** Exactly a hard link at the root with something to copy spoils the names. */
  lemma {:induction false} StepsLegal(f: Flat, e: Entry)
    requires LegalTree(f) && LegalEntry(e)
    ensures LegalTree(EraseStep(f, e).0)
    ensures LegalTree(PlaceStep(f, e).0) <==> !HangsDot(f, e)
  {
    LegalExactly(f);
    LegalExactly(EraseStep(f, e).0);
    LegalExactly(PlaceStep(f, e).0);
    StepsNearly(f, e);
  }

  /** Some entry of the layer hangs "." when its turn comes. */
  ghost predicate SomeDot(f: Flat, es: seq<Entry>) {
    exists i :: 0 <= i < |es| && HangsDot(PlaceAll(f, es[..i]), es[i])
  }

  /** Some whiteout or opaque marker of the layer takes it away. */
  ghost predicate SomeTake(f: Flat, es: seq<Entry>) {
    exists i :: 0 <= i < |es| && TakesDot(EraseAll(f, es[..i]), es[i])
  }

  lemma {:induction false} SomeDotNext(f: Flat, es: seq<Entry>)
    requires es != []
    ensures var init, e := es[..|es| - 1], es[|es| - 1];
      SomeDot(f, es) <==> SomeDot(f, init) || HangsDot(PlaceAll(f, init), e)
  {
    hide HangsDot, PlaceAll;
    var init := es[..|es| - 1];
    assert forall i :: 0 <= i < |init| ==> init[..i] == es[..i] && init[i] == es[i];
    if SomeDot(f, init) {
      var i :| 0 <= i < |init| && HangsDot(PlaceAll(f, init[..i]), init[i]);
      assert HangsDot(PlaceAll(f, es[..i]), es[i]);
    }
    if SomeDot(f, es) {
      var i :| 0 <= i < |es| && HangsDot(PlaceAll(f, es[..i]), es[i]);
      if i < |init| { assert HangsDot(PlaceAll(f, init[..i]), init[i]); }
    }
  }

  lemma {:induction false} SomeTakeNext(f: Flat, es: seq<Entry>)
    requires es != []
    ensures var init, e := es[..|es| - 1], es[|es| - 1];
      SomeTake(f, es) <==> SomeTake(f, init) || TakesDot(EraseAll(f, init), e)
  {
    hide TakesDot, EraseAll;
    var init := es[..|es| - 1];
    assert forall i :: 0 <= i < |init| ==> init[..i] == es[..i] && init[i] == es[i];
    if SomeTake(f, init) {
      var i :| 0 <= i < |init| && TakesDot(EraseAll(f, init[..i]), init[i]);
      assert TakesDot(EraseAll(f, es[..i]), es[i]);
    }
    if SomeTake(f, es) {
      var i :| 0 <= i < |es| && TakesDot(EraseAll(f, es[..i]), es[i]);
      if i < |init| { assert TakesDot(EraseAll(f, init[..i]), init[i]); }
    }
  }

  ghost predicate LegalEntries(es: seq<Entry>) {
    forall i :: 0 <= i < |es| ==> LegalEntry(es[i])
  }

  lemma {:induction false} EraseAllNearly(f: Flat, es: seq<Entry>)
    requires NearlyLegal(f) && LegalEntries(es)
    ensures NearlyLegal(EraseAll(f, es)) && (DOT in EraseAll(f, es) <==> DOT in f && !SomeTake(f, es))
  {
    if es != [] {
      var init, e := es[..|es| - 1], es[|es| - 1];
      EraseAllNearly(f, init);
      SomeTakeNext(f, es);
      hide SomeTake, TakesDot, NearlyLegal;
      StepsNearly(EraseAll(f, init), e);
    }
  }

  lemma {:induction false} PlaceAllNearly(f: Flat, es: seq<Entry>)
    requires NearlyLegal(f) && LegalEntries(es)
    ensures NearlyLegal(PlaceAll(f, es)) && (DOT in PlaceAll(f, es) <==> DOT in f || SomeDot(f, es))
  {
    if es != [] {
      var init, e := es[..|es| - 1], es[|es| - 1];
      PlaceAllNearly(f, init);
      SomeDotNext(f, es);
      hide SomeDot, HangsDot, NearlyLegal;
      StepsNearly(PlaceAll(f, init), e);
    }
  }

  /** Whether "." is left when the layer is through: one of its own hard links hangs
      it, or it was there and no marker of the layer takes it away. */
  ghost predicate LeavesDot(f: Flat, es: seq<Entry>) {
    SomeDot(EraseAll(f, es), es) || (DOT in f && !SomeTake(f, es))
  }

  /** Whatever lies below the layer, every name in the merged tree is one a
      directory object accepts, if and only if the layer does not leave ".". */
  lemma {:induction false} LayerKeepsLegalNames(f: Flat, es: seq<Entry>)
    requires NearlyLegal(f) && LegalEntries(es)
    ensures NearlyLegal(ApplyLayer(f, es))
    ensures DOT in ApplyLayer(f, es) <==> LeavesDot(f, es)
    ensures LegalTree(ApplyLayer(f, es)) <==> !LeavesDot(f, es)
  {
    hide SomeDot, SomeTake, NearlyLegal, LegalTree, LegalEntry, LegalEntries;
    EraseAllNearly(f, es);
    PlaceAllNearly(EraseAll(f, es), es);
    LegalExactly(ApplyLayer(f, es));
  }

  ghost predicate NoEmptyTarget(f: Flat) {
    forall p :: p in f && f[p].kind.Symlink? ==> f[p].kind.target != ""
  }

  lemma {:induction false} NotLegal(f: Flat)
    requires DOT in f
    ensures !LegalTree(f) && !Storable(f, [])
  {
    assert DOT[0] == "." && !LegalPath(DOT);
    assert DOT in Below(f, []) && !StorableAt(f, DOT);
  }

  /** What merging leaves can be stored if and only if nothing hangs under "." and
      no symlink has an empty target. */
  lemma {:induction false} NearlyStorable(f: Flat)
    requires WellFormed(f) && NearlyLegal(f)
    ensures Storable(f, []) <==> DOT !in f && NoEmptyTarget(f)
  {
    LegalExactly(f);
    hide LegalTree, NearlyLegal, Storable;
    if DOT in f { NotLegal(f); } else { StorableExactly(f); }
  }

  lemma {:induction false} NotBelowDot(p: Path)
    requires LegalPath(p)
    ensures !(DOT <= p)
  {
    assert p != [] ==> LegalName(p[0]);
  }

  /** A layer that takes "." away again: after a hard link at the root and then a
      whiteout of that name, the tree can be stored as before. */
  lemma {:induction false} LaterWhiteoutTakesDot(f: Flat, target: Path, meta: Meta)
    requires WellFormed(f) && LegalTree(f) && Lookup(f, target).Hit? && !Lookup(f, target).info.kind.Dir?
    ensures EraseStep(Link(f, [], target, meta).0, Entry.Entry(DOT, Whiteout)).0 == f
  {
    var info := Info(Lookup(f, target).info.kind, meta);
    LegalExactly(f);
    DotIsHung(f, info);
    var g := SetAt(f, DOT, info);
    assert Parent(DOT) == [] && [] + [Base(DOT)] == DOT;
    forall p | p in f ensures !(DOT <= p) { NotBelowDot(p); }
    assert Cut(g, DOT) == f;
  }

  /** A legal tree can be stored exactly when no symlink has an empty target. */
  lemma {:induction false} StorableExactly(f: Flat)
    requires WellFormed(f) && LegalTree(f)
    ensures Storable(f, []) <==> NoEmptyTarget(f)
  {
    forall x ensures x in Below(f, []) <==> x in f && x != [] {
      assert x != [] ==> [] < x;
    }
    if forall p :: p in f && f[p].kind.Symlink? ==> f[p].kind.target != "" {
      forall x | x in Below(f, []) ensures StorableAt(f, x) { assert LegalName(x[|x| - 1]); }
    }
    if Storable(f, []) {
      forall p | p in f && f[p].kind.Symlink? ensures f[p].kind.target != "" {
        assert p in Below(f, []) && StorableAt(f, p);
      }
    }
  }

  /** A hard link whose path is the root hangs its copy in the root under the
      name ".", unlike put, which refuses, and makes the tree unstorable. */
  lemma {:induction false} RootHardLinkCannotBeStored(f: Flat, target: Path, meta: Meta)
    requires Lookup(f, target).Hit? && !Lookup(f, target).info.kind.Dir?
    ensures Link(f, [], target, meta) == (SetAt(f, DOT, Info(Lookup(f, target).info.kind, meta)), Done)
    ensures !Storable(Link(f, [], target, meta).0, [])
  {
    DotIsHung(f, Info(Lookup(f, target).info.kind, meta));
    NotLegal(Link(f, [], target, meta).0);
  }
}
