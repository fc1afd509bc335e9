/** What one archive entry and one layer do to the merged filesystem: the
    operations of rootfs/tree.go and Builder.Apply as functions on the flat
    path map, with every symlink followed. */
module Merge {
  import opened PathMap

  datatype Action =
    | Place(info: Info)
    | HardLink(target: Path, meta: Meta)
    | Whiteout
    | Opaque
    | Skip(reason: string)

  /** One archive entry; path is the cleaned name, component by component. */
  datatype Entry = Entry(path: Path, action: Action)

  datatype Outcome = Done | Refused(reason: string)

  const LOOP := Refused("symlink loop")
  const ROOT_NOT_DIR := Refused("root is not a directory")
  const NO_TARGET := Refused("hard link target not found")
  const LINK_TO_DIR := Refused("hard link to a directory")

  /** The entry at p, following symlinks in the parent components only. */
  datatype Found = Hit(info: Info) | NoEntry | LookupLoop

  function Lookup(f: Flat, p: Path): Found {
    if p == [] then (if [] in f then Hit(f[[]]) else NoEntry)
    else
      match Walk(f, [], Parent(p), 0)
      case Loop => LookupLoop
      case Missing => NoEntry
      case Reached(d) => if d + [Base(p)] in f then Hit(f[d + [Base(p)]]) else NoEntry
  }

  /** Places info at q, whose parent exists: a directory over a directory keeps
      what is below, anything else replaces the old subtree. */
  function SetAt(f: Flat, q: Path, info: Info): Flat {
    if info.kind.Dir? && IsDir(f, q) then f[q := info] else Cut(f, q)[q := info]
  }

  /** The second half of put and link: make the parents, then set the entry. */
  function SetUnder(f: Flat, p: Path, info: Info): (Flat, Outcome) {
    var (g, r) := CreateWalk(f, [], Parent(p), 0);
    if r.Reached? then (SetAt(g, r.path + [Base(p)], info), Done) else (g, LOOP)
  }

  function Put(f: Flat, p: Path, info: Info): (Flat, Outcome) {
    if p == [] then (f, if info.kind.Dir? then Done else ROOT_NOT_DIR)
    else SetUnder(f, p, info)
  }

  function Link(f: Flat, p: Path, target: Path, meta: Meta): (Flat, Outcome) {
    match Lookup(f, target)
    case LookupLoop => (f, LOOP)
    case NoEntry => (f, NO_TARGET)
    case Hit(info) =>
      if info.kind.Dir? then (f, LINK_TO_DIR)
      else SetUnder(f, p, Info(info.kind, meta))
  }

  function Erase(f: Flat, p: Path): (Flat, Outcome) {
    if p == [] then (f, Done)
    else
      match Walk(f, [], Parent(p), 0)
      case Loop => (f, LOOP)
      case Missing => (f, Done)
      case Reached(d) => (Cut(f, d + [Base(p)]), Done)
  }

  function Clear(f: Flat, p: Path): (Flat, Outcome) {
    match Walk(f, [], p, 0)
    case Loop => (f, LOOP)
    case Missing => (f, Done)
    case Reached(d) => (CutBelow(f, d), Done)
  }

  /** The first pass of Apply: whiteouts and opaque markers only. */
  function EraseStep(f: Flat, e: Entry): (Flat, Outcome) {
    match e.action
    case Whiteout => Erase(f, e.path)
    case Opaque => Clear(f, e.path)
    case _ => (f, Done)
  }

  /** The second pass of Apply: everything else. */
  function PlaceStep(f: Flat, e: Entry): (Flat, Outcome) {
    match e.action
    case Place(info) => Put(f, e.path, info)
    case HardLink(t, m) => Link(f, e.path, t, m)
    case Skip(reason) => (f, Refused(reason))
    case _ => (f, Done)
  }

  function EraseAll(f: Flat, es: seq<Entry>): Flat {
    if es == [] then f else EraseStep(EraseAll(f, es[..|es| - 1]), es[|es| - 1]).0
  }

  function PlaceAll(f: Flat, es: seq<Entry>): Flat {
    if es == [] then f else PlaceStep(PlaceAll(f, es[..|es| - 1]), es[|es| - 1]).0
  }

  /** Builder.Apply: erase with the whole layer first, then place it. */
  function ApplyLayer(f: Flat, es: seq<Entry>): Flat {
    PlaceAll(EraseAll(f, es), es)
  }

  lemma {:induction false} SetAtWellFormed(f: Flat, d: Path, c: string, info: Info)
    requires WellFormed(f) && IsDir(f, d)
    ensures WellFormed(SetAt(f, d + [c], info))
  {
    var q := d + [c];
    var g := SetAt(f, q, info);
    forall p | p in g ensures Rooted(g, p) {
      if p == q { assert Parent(p) == d; } else { assert Rooted(f, p); }
      assert p != [] && q <= Parent(p) ==> q <= p;
    }
  }

  lemma {:induction false} CutWellFormed(f: Flat, q: Path)
    requires WellFormed(f)
    ensures q != [] ==> WellFormed(Cut(f, q))
    ensures WellFormed(CutBelow(f, q))
  {
    forall p | p in Cut(f, q) ensures Rooted(Cut(f, q), p) {
      assert Rooted(f, p);
      assert p != [] && q <= Parent(p) ==> q <= p;
    }
    forall p | p in CutBelow(f, q) ensures Rooted(CutBelow(f, q), p) {
      assert Rooted(f, p);
      assert p != [] && q < Parent(p) ==> q < p;
    }
  }

  lemma {:induction false} SetUnderWellFormed(f: Flat, p: Path, info: Info)
    requires WellFormed(f)
    ensures WellFormed(SetUnder(f, p, info).0)
  {
    CreateWalkGrows(f, [], Parent(p), 0);
    var (g, r) := CreateWalk(f, [], Parent(p), 0);
    if r.Reached? { SetAtWellFormed(g, r.path, Base(p), info); }
  }

  /** Every step of either pass keeps the flat map a tree. */
  lemma {:induction false} StepsWellFormed(f: Flat, e: Entry)
    requires WellFormed(f)
    ensures WellFormed(EraseStep(f, e).0)
    ensures WellFormed(PlaceStep(f, e).0)
  {
    match e.action
    case Place(info) => SetUnderWellFormed(f, e.path, info);
    case HardLink(t, m) =>
      if Lookup(f, t).Hit? { SetUnderWellFormed(f, e.path, Info(Lookup(f, t).info.kind, m)); }
    case Whiteout =>
      WalkStaysInside(f, [], Parent(e.path), 0);
      var w := Walk(f, [], Parent(e.path), 0);
      if w.Reached? { CutWellFormed(f, w.path + [Base(e.path)]); }
    case Opaque =>
      var w := Walk(f, [], e.path, 0);
      if w.Reached? { CutWellFormed(f, w.path); }
    case Skip(_) =>
  }

  lemma {:induction false} EraseAllWellFormed(f: Flat, es: seq<Entry>)
    requires WellFormed(f)
    ensures WellFormed(EraseAll(f, es))
  {
    if es != [] {
      EraseAllWellFormed(f, es[..|es| - 1]);
      StepsWellFormed(EraseAll(f, es[..|es| - 1]), es[|es| - 1]);
    }
  }

  lemma {:induction false} PlaceAllWellFormed(f: Flat, es: seq<Entry>)
    requires WellFormed(f)
    ensures WellFormed(PlaceAll(f, es))
  {
    if es != [] {
      PlaceAllWellFormed(f, es[..|es| - 1]);
      StepsWellFormed(PlaceAll(f, es[..|es| - 1]), es[|es| - 1]);
    }
  }

  /** Whether the way to the entry's place, to what it removes or to what it links to
      is a symlink loop; a skip has its reason already. */
  ghost predicate MeetsLoop(f: Flat, e: Entry) {
    match e.action
    case Place(_) => e.path != [] && CreateWalk(f, [], Parent(e.path), 0).1.Loop?
    case HardLink(t, _) =>
      || (t != [] && Walk(f, [], Parent(t), 0).Loop?)
      || (t != [] && Lookup(f, t).Hit? && !Lookup(f, t).info.kind.Dir? && CreateWalk(f, [], Parent(e.path), 0).1.Loop?)
    case Whiteout => e.path != [] && Walk(f, [], Parent(e.path), 0).Loop?
    case Opaque => Walk(f, [], e.path, 0).Loop?
    case Skip(reason) => reason == "symlink loop"
  }

  /** An entry is refused as a loop exactly when it meets one, in either pass. */
  lemma {:induction false} LoopsAreRefused(f: Flat, e: Entry)
    requires WellFormed(f)
    ensures EraseStep(f, e).1 == Refused("symlink loop") || PlaceStep(f, e).1 == Refused("symlink loop") <==>
      MeetsLoop(f, e)
  {
    CreateWalkGrows(f, [], Parent(e.path), 0);
    hide Walk, CreateWalk, SetAt;
  }
}
