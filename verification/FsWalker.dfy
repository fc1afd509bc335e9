/** The reader of a stored tree (rootfs/fs.go): an independent walker over
    directory objects, proved to agree with the builder's own walk. */
module FsWalker {
  import opened PathMap
  import opened StoredTree

  datatype Fetched = Got(e: StoredEntry) | NoSuchName

  /** fstree.LookupEntry on one directory object. */
  function LookupEntry(o: DirObject, c: string): (r: Fetched)
    ensures r.Got? ==> r.e in o && r.e.name == c
    ensures r.NoSuchName? <==> c !in Names(o)
  {
    if o == [] then NoSuchName
    else if o[0].name == c then assert Names(o)[0] == c; Got(o[0])
    else
      var r := LookupEntry(o[1..], c);
      assert Names(o) == [o[0].name] + Names(o[1..]);
      r
  }

  datatype Stat = Entry(e: StoredEntry) | NotFound | NotDir | TooManyLinks | StoreError

  function RootEntry(root: Key): StoredEntry {
    StoredEntry("", DirKey(root), IMPLICIT_DIR.meta)
  }

  /** Whether anything but slashes and dots is left of the path. */
  function HasComponent(comps: seq<string>): (b: bool)
    ensures b <==> exists i :: 0 <= i < |comps| && comps[i] != "" && comps[i] != "."
  {
    if comps == [] then false
    else if comps[0] != "" && comps[0] != "." then true
    else
      assert forall i :: 0 < i < |comps| ==> comps[i] == comps[1..][i - 1];
      HasComponent(comps[1..])
  }

  /** FS.resolve from a stack of directory entries with hops links followed. */
  function FsWalk(objects: Objects, stack: seq<StoredEntry>, comps: seq<string>, hops: nat): Stat
    requires stack != [] && hops <= MAX_SYMLINK_HOPS
    decreases MAX_SYMLINK_HOPS - hops, |comps|
  {
    if comps == [] then Entry(stack[|stack| - 1])
    else
      var c, rest, dir := comps[0], comps[1..], stack[|stack| - 1];
      if c == "" || c == "." then FsWalk(objects, stack, rest, hops)
      else if c == ".." then
        FsWalk(objects, if |stack| > 1 then stack[..|stack| - 1] else stack, rest, hops)
      else if !dir.payload.DirKey? || dir.payload.key !in objects then StoreError
      else
        match LookupEntry(objects[dir.payload.key], c)
        case NoSuchName => NotFound
        case Got(e) =>
          match e.payload
          case LinkTarget(t) =>
            if hops == MAX_SYMLINK_HOPS then TooManyLinks
            else FsWalk(objects, if Absolute(t) then stack[..1] else stack, TargetComponents(t) + rest, hops + 1)
          case DirKey(_) => FsWalk(objects, stack + [e], rest, hops)
          case _ => if HasComponent(rest) then NotDir else Entry(e)
  }

  /** path.Clean of a rooted path, component by component: "" and "." vanish,
      ".." pops and never rises above the root. */
  function CleanComponents(done: Path, comps: seq<string>): Path
    decreases |comps|
  {
    if comps == [] then done
    else if comps[0] == "" || comps[0] == "." then CleanComponents(done, comps[1..])
    else if comps[0] == ".." then CleanComponents(Parent(done), comps[1..])
    else CleanComponents(done + [comps[0]], comps[1..])
  }

  /** Clean, then splitPath. */
  function Clean(p: string): Path {
    CleanComponents([], Split(p))
  }

  /** Stat(p): follows symlinks in every component. */
  method Resolve(objects: Objects, root: Key, p: string) returns (r: Stat)
    ensures r == FsWalk(objects, [RootEntry(root)], Clean(p), 0)
  {
    var stack, comps, hops := [RootEntry(root)], Clean(p), 0;
    while |comps| > 0
      invariant stack != [] && stack[0] == RootEntry(root) && hops <= MAX_SYMLINK_HOPS
      invariant FsWalk(objects, stack, comps, hops) == FsWalk(objects, [RootEntry(root)], Clean(p), 0)
      decreases MAX_SYMLINK_HOPS - hops, |comps|
    {
      var c := comps[0];
      comps := comps[1..];
      if c == "" || c == "." { continue; }
      if c == ".." {
        if |stack| > 1 { stack := stack[..|stack| - 1]; }
        continue;
      }
      var dir := stack[|stack| - 1];
      if !dir.payload.DirKey? || dir.payload.key !in objects { return StoreError; }
      var found := LookupEntry(objects[dir.payload.key], c);
      if found.NoSuchName? { return NotFound; }
      match found.e.payload {
        case LinkTarget(t) =>
          hops := hops + 1;
          if hops > MAX_SYMLINK_HOPS { return TooManyLinks; }
          if Absolute(t) { stack := stack[..1]; }
          comps := TargetComponents(t) + comps;
        case DirKey(_) =>
          stack := stack + [found.e];
        case _ =>
          return if HasComponent(comps) then NotDir else Entry(found.e);
      }
    }
    return Entry(stack[|stack| - 1]);
  }

  // ---- The two walkers agree ------------------------------------------

  /** e is the entry of the directory at d: its key, and its own metadata
      unless it is the root, which stores none. */
  ghost predicate EntryOfDir(f: Flat, keyOf: KeyMap, d: Path, e: StoredEntry) {
    && IsDir(f, d) && d in keyOf && e.payload == DirKey(keyOf[d])
    && (d != [] ==> e.name == Base(d) && e.meta == f[d].meta)
  }

  ghost predicate StackOf(f: Flat, keyOf: KeyMap, stack: seq<StoredEntry>, cur: Path)
    decreases |cur|
  {
    && |stack| == |cur| + 1 && EntryOfDir(f, keyOf, cur, stack[|cur|])
    && (cur != [] ==> StackOf(f, keyOf, stack[..|cur|], Parent(cur)))
  }

  /** What the reader reports and where the builder's walk ends. */
  ghost predicate Agree(f: Flat, keyOf: KeyMap, s: Stat, w: Walked) {
    match w
    case Reached(d) => s.Entry? && EntryOfDir(f, keyOf, d, s.e)
    case Missing => s.NotFound? || s.NotDir? || (s.Entry? && !s.e.payload.DirKey?)
    case Loop => s.TooManyLinks?
  }

  lemma {:induction false} StoredChild(objects: Objects, f: Flat, keyOf: KeyMap, d: Path, c: string)
    requires Holds(objects, f, keyOf, d)
    ensures d in keyOf && keyOf[d] in objects
    ensures match LookupEntry(objects[keyOf[d]], c)
      case NoSuchName => d + [c] !in f
      case Got(e) => d + [c] in f && e.name == c && EntryMatches(f, keyOf, d, e)
  {
    if d + [c] in f { assert Parent(d + [c]) == d && Base(d + [c]) == c; }
  }

  lemma {:induction false} StackBottom(f: Flat, keyOf: KeyMap, stack: seq<StoredEntry>, cur: Path)
    requires StackOf(f, keyOf, stack, cur)
    ensures StackOf(f, keyOf, stack[..1], [])
    decreases |cur|
  {
    if cur == [] { assert stack[..1] == stack; }
    else {
      StackBottom(f, keyOf, stack[..|cur|], Parent(cur));
      assert stack[..|cur|][..1] == stack[..1];
    }
  }

  /** From matching stacks, any components and any number of links followed,
      the reader of the stored tree and the builder's walk agree. */
  lemma {:induction false} WalksAgree(objects: Objects, f: Flat, keyOf: KeyMap,
                                      stack: seq<StoredEntry>, cur: Path, comps: seq<string>, hops: nat)
    requires WellFormed(f) && StoredFrom(objects, f, keyOf, []) && hops <= MAX_SYMLINK_HOPS
    requires StackOf(f, keyOf, stack, cur)
    ensures Agree(f, keyOf, FsWalk(objects, stack, comps, hops), Walk(f, cur, comps, hops))
    decreases MAX_SYMLINK_HOPS - hops, |comps|
  {
    hide Holds, EntryMatches;
    if comps != [] {
      var c, rest := comps[0], comps[1..];
      if c == "" || c == "." {
        WalksAgree(objects, f, keyOf, stack, cur, rest, hops);
      } else if c == ".." {
        if cur == [] { WalksAgree(objects, f, keyOf, stack, cur, rest, hops); }
        else { WalksAgree(objects, f, keyOf, stack[..|cur|], Parent(cur), rest, hops); }
      } else {
        NamedStep(objects, f, keyOf, stack, cur, c);
        var r := LookupEntry(objects[keyOf[cur]], c);
        if r.Got? && r.e.payload.LinkTarget? && hops < MAX_SYMLINK_HOPS {
          var t := r.e.payload.target;
          if Absolute(t) {
            StackBottom(f, keyOf, stack, cur);
            WalksAgree(objects, f, keyOf, stack[..1], [], TargetComponents(t) + rest, hops + 1);
          } else {
            WalksAgree(objects, f, keyOf, stack, cur, TargetComponents(t) + rest, hops + 1);
          }
        } else if r.Got? && r.e.payload.DirKey? {
          WalksAgree(objects, f, keyOf, stack + [r.e], cur + [c], rest, hops);
        }
      }
    }
  }

  lemma {:induction false} NamedStep(objects: Objects, f: Flat, keyOf: KeyMap, stack: seq<StoredEntry>, cur: Path,
      c: string)
    requires WellFormed(f) && StoredFrom(objects, f, keyOf, []) && StackOf(f, keyOf, stack, cur)
    ensures cur in keyOf && keyOf[cur] in objects
    ensures match LookupEntry(objects[keyOf[cur]], c)
      case NoSuchName => cur + [c] !in f
      case Got(e) =>
        && cur + [c] in f && e.name == c && EntryMatches(f, keyOf, cur, e)
        && (e.payload.DirKey? <==> IsDir(f, cur + [c]))
        && (e.payload.LinkTarget? <==> IsLink(f, cur + [c]))
        && (e.payload.LinkTarget? ==> e.payload.target == f[cur + [c]].kind.target)
        && (e.payload.DirKey? ==> StackOf(f, keyOf, stack + [e], cur + [c]))
  {
    hide Holds;
    assert Holds(objects, f, keyOf, cur);
    StoredChild(objects, f, keyOf, cur, c);
    var r := LookupEntry(objects[keyOf[cur]], c);
    if r.Got? && r.e.payload.DirKey? {
      var q := cur + [c];
      assert Parent(q) == cur && (stack + [r.e])[..|q|] == stack;
    }
  }

  /** For every request path, Stat on a stored tree and the builder's walk of
      the cleaned path report the same thing: the same directory, a loop
      together, and an error or a non-directory exactly where the builder
      finds no directory. */
  lemma {:induction false} StatAgreesWithBuilder(objects: Objects, f: Flat, keyOf: KeyMap, p: string)
    requires WellFormed(f) && StoredFrom(objects, f, keyOf, [])
    ensures [] in keyOf
    ensures Agree(f, keyOf, FsWalk(objects, [RootEntry(keyOf[[]])], Clean(p), 0), Walk(f, [], Clean(p), 0))
  {
    assert [] in keyOf;
    WalksAgree(objects, f, keyOf, [RootEntry(keyOf[[]])], [], Clean(p), 0);
  }

  // ---- What a path reads ------------------------------------------------

  /** Where a path leads on the flat map, symlinks followed in every component. */
  datatype Target = Found(path: Path) | NothingThere | NotADirectory | Cyclic

  function LeadsTo(f: Flat, cur: Path, comps: seq<string>, hops: nat): Target
    requires hops <= MAX_SYMLINK_HOPS
    decreases MAX_SYMLINK_HOPS - hops, |comps|
  {
    if comps == [] then Found(cur)
    else
      var c, rest := comps[0], comps[1..];
      if c == "" || c == "." then LeadsTo(f, cur, rest, hops)
      else if c == ".." then LeadsTo(f, Parent(cur), rest, hops)
      else if cur + [c] !in f then NothingThere
      else if IsDir(f, cur + [c]) then LeadsTo(f, cur + [c], rest, hops)
      else if IsLink(f, cur + [c]) then
        var t := f[cur + [c]].kind.target;
        if hops == MAX_SYMLINK_HOPS then Cyclic
        else LeadsTo(f, if Absolute(t) then [] else cur, TargetComponents(t) + rest, hops + 1)
      else if HasComponent(rest) then NotADirectory
      else Found(cur + [c])
  }

  /** The reader reports the entry the path leads to, its name, metadata and
      payload, or the very error there is on the way. */
  ghost predicate ReadsAs(f: Flat, keyOf: KeyMap, s: Stat, t: Target) {
    match t
    case Found(p) =>
      && s.Entry? && p in f
      && (if p == [] then [] in keyOf && s.e == StoredEntry("", DirKey(keyOf[[]]), Meta(0x1ED, 0, 0, 0, map[]))
          else s.e.name == p[|p| - 1] && EntryMatches(f, keyOf, Parent(p), s.e))
    case NothingThere => s == NotFound
    case NotADirectory => s == NotDir
    case Cyclic => s == TooManyLinks
  }

  /** The stack's own entries are read as what they are. */
  ghost predicate RootedAt(keyOf: KeyMap, stack: seq<StoredEntry>) {
    stack != [] && [] in keyOf && stack[0] == RootEntry(keyOf[[]])
  }

  lemma {:induction false} TopReadsAs(f: Flat, keyOf: KeyMap, stack: seq<StoredEntry>, cur: Path)
    requires StackOf(f, keyOf, stack, cur) && RootedAt(keyOf, stack)
    ensures ReadsAs(f, keyOf, Entry(stack[|stack| - 1]), Found(cur))
  {
    if cur != [] { assert Parent(cur) + [Base(cur)] == cur; }
  }

  /** From matching stacks, any components and any number of links followed, the
      reader of the stored tree reports what the flat map holds. */
  lemma {:induction false} ReadsWhatIsThere(objects: Objects, f: Flat, keyOf: KeyMap,
                                            stack: seq<StoredEntry>, cur: Path, comps: seq<string>, hops: nat)
    requires WellFormed(f) && StoredFrom(objects, f, keyOf, []) && hops <= MAX_SYMLINK_HOPS
    requires StackOf(f, keyOf, stack, cur) && RootedAt(keyOf, stack)
    ensures ReadsAs(f, keyOf, FsWalk(objects, stack, comps, hops), LeadsTo(f, cur, comps, hops))
    decreases MAX_SYMLINK_HOPS - hops, |comps|
  {
    hide Holds, EntryMatches, ReadsAs, Carries, TargetComponents, HasComponent, LookupEntry;
    if comps == [] {
      TopReadsAs(f, keyOf, stack, cur);
    } else {
      var c, rest := comps[0], comps[1..];
      if c == "" || c == "." {
        ReadsWhatIsThere(objects, f, keyOf, stack, cur, rest, hops);
      } else if c == ".." {
        if cur == [] { ReadsWhatIsThere(objects, f, keyOf, stack, cur, rest, hops); }
        else { ReadsWhatIsThere(objects, f, keyOf, stack[..|cur|], Parent(cur), rest, hops); }
      } else {
        NamedStep(objects, f, keyOf, stack, cur, c);
        var r := LookupEntry(objects[keyOf[cur]], c);
        if r.Got? && r.e.payload.LinkTarget? && hops < MAX_SYMLINK_HOPS {
          var t := r.e.payload.target;
          if Absolute(t) {
            StackBottom(f, keyOf, stack, cur);
            ReadsWhatIsThere(objects, f, keyOf, stack[..1], [], TargetComponents(t) + rest, hops + 1);
          } else {
            ReadsWhatIsThere(objects, f, keyOf, stack, cur, TargetComponents(t) + rest, hops + 1);
          }
        } else if r.Got? && r.e.payload.DirKey? {
          ReadsWhatIsThere(objects, f, keyOf, stack + [r.e], cur + [c], rest, hops);
        } else {
          EndsHere(objects, f, keyOf, cur, c, rest, hops);
        }
      }
    }
  }

  /** The walk ends at this component: an error, or an entry of another kind. */
  lemma {:induction false} EndsHere(objects: Objects, f: Flat, keyOf: KeyMap, cur: Path, c: string,
      rest: seq<string>, hops: nat)
    requires WellFormed(f) && Holds(objects, f, keyOf, cur) && hops <= MAX_SYMLINK_HOPS
    requires IsLink(f, cur + [c]) ==> hops == MAX_SYMLINK_HOPS
    requires !IsDir(f, cur + [c])
    ensures
      var s := match LookupEntry(objects[keyOf[cur]], c)
        case NoSuchName => NotFound
        case Got(e) =>
          if e.payload.LinkTarget? then TooManyLinks else if HasComponent(rest) then NotDir else Entry(e);
      var t := if cur + [c] !in f then NothingThere else if IsLink(f, cur + [c]) then Cyclic
        else if HasComponent(rest) then NotADirectory else Found(cur + [c]);
      ReadsAs(f, keyOf, s, t)
  {
    hide Holds;
    StoredChild(objects, f, keyOf, cur, c);
    var q := cur + [c];
    assert Parent(q) == cur && Base(q) == c;
  }

  /** For every request path, Stat on a stored tree reports what the map has
      where the path leads. */
  lemma {:induction false} StatReadsWhatIsThere(objects: Objects, f: Flat, keyOf: KeyMap, p: string)
    requires WellFormed(f) && StoredFrom(objects, f, keyOf, [])
    ensures [] in keyOf
    ensures ReadsAs(f, keyOf, FsWalk(objects, [RootEntry(keyOf[[]])], Clean(p), 0), LeadsTo(f, [], Clean(p), 0))
  {
    assert [] in keyOf;
    ReadsWhatIsThere(objects, f, keyOf, [RootEntry(keyOf[[]])], [], Clean(p), 0);
  }

  /** On a path that meets no symlink, a path leads to itself: to the entry when
      there is one, else to nothing below a directory or past something else. */
  lemma {:induction false} PlainPathLeadsToItself(f: Flat, cur: Path, comps: Path)
    requires WellFormed(f) && IsDir(f, cur) && ProperPath(comps)
    requires forall q :: cur < q <= cur + comps ==> !IsLink(f, q)
    ensures var t := LeadsTo(f, cur, comps, 0);
      && (cur + comps in f ==> t == Found(cur + comps))
      && (cur + comps !in f ==>
            if exists q :: cur < q < cur + comps && q in f && !IsDir(f, q) then t == NotADirectory else t == NothingThere)
    decreases |comps|
  {
    if comps == [] {
      assert cur + comps == cur;
    } else {
      var c, rest := comps[0], comps[1..];
      var q, goal := cur + [c], cur + comps;
      assert q + rest == goal && cur < q <= goal && !IsLink(f, q);
      assert rest == [] <==> q == goal;
      assert rest != [] ==> ProperName(rest[0]) && HasComponent(rest);
      if IsDir(f, q) {
        forall x | q < x <= goal ensures !IsLink(f, x) {
          PrefixTransitive(cur, q, x);
          assert cur < x <= cur + comps && !IsLink(f, x);
        }
        PlainPathLeadsToItself(f, q, rest);
        forall x | cur < x < goal && x in f && !IsDir(f, x) ensures q < x { Between(cur, c, rest, x); }
        forall x | q < x < goal && x in f ensures cur < x < goal { PrefixTransitive(cur, q, x); }
      } else {
        NothingPast(f, cur, c, rest);
      }
    }
  }

  lemma {:induction false} Between(cur: Path, c: string, rest: Path, x: Path)
    requires cur < x < cur + [c] + rest
    ensures x == cur + [c] || cur + [c] < x
  {
    assert x == (cur + [c] + rest)[..|x|];
  }

  /** Below what is no directory there is nothing. */
  lemma {:induction false} NothingPast(f: Flat, cur: Path, c: string, rest: Path)
    requires WellFormed(f) && !IsDir(f, cur + [c]) && IsDir(f, cur)
    ensures rest != [] ==> cur + [c] + rest !in f
    ensures cur + [c] !in f ==> forall x :: cur < x < cur + [c] + rest ==> x !in f
  {
    var q := cur + [c];
    if rest != [] && q + rest in f { AncestorIsDir(f, q, q + rest); }
    if q !in f {
      forall x | cur < x < q + rest ensures x !in f {
        Between(cur, c, rest, x);
        if q < x && x in f { AncestorIsDir(f, q, x); }
      }
    }
  }

  /** A cleaned path holds only names of entries: no "", "." or "..". */
  lemma {:induction false} CleanIsProper(done: Path, comps: seq<string>)
    requires ProperPath(done) && forall i :: 0 <= i < |comps| ==> '/' !in comps[i]
    ensures ProperPath(CleanComponents(done, comps))
    decreases |comps|
  {
    if comps != [] {
      var c := comps[0];
      if c == "" || c == "." { CleanIsProper(done, comps[1..]); }
      else if c == ".." { CleanIsProper(Parent(done), comps[1..]); }
      else { CleanIsProper(done + [c], comps[1..]); }
    }
  }
}
