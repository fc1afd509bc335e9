/** What cleanPath and convert of rootfs/layer.go come to, told from the names and
    fields of a header: the rules of path.Clean, and the entry of every kind. */
module HeaderNames {
  import opened PathMap
  import opened Merge
  import opened FsWalker
  import opened PathNames
  import opened LayerEntries

  // ---- Cleaning in two parts -----------------------------------------------

  lemma {:induction false} CleanInTwo(done: Path, a: seq<string>, b: seq<string>)
    ensures CleanComponents(done, a + b) == CleanComponents(CleanComponents(done, a), b)
    decreases |a|
  {
    if a == [] {
      assert a + b == b;
    } else {
      assert (a + b)[1..] == a[1..] + b;
      var c := a[0];
      CleanInTwo(if c == "" || c == "." then done else if c == ".." then Parent(done) else done + [c], a[1..], b);
    }
  }

  lemma {:induction false} CleanRelativeInTwo(ups: nat, done: Path, a: seq<string>, b: seq<string>)
    ensures var r := CleanRelative(ups, done, a); CleanRelative(ups, done, a + b) == CleanRelative(r.0, r.1, b)
    decreases |a|
  {
    if a == [] {
      assert a + b == b;
    } else {
      assert (a + b)[1..] == a[1..] + b;
      var c := a[0];
      if c == "" || c == "." { CleanRelativeInTwo(ups, done, a[1..], b); }
      else if c != ".." { CleanRelativeInTwo(ups, done + [c], a[1..], b); }
      else if done == [] { CleanRelativeInTwo(ups + 1, [], a[1..], b); }
      else { CleanRelativeInTwo(ups, Parent(done), a[1..], b); }
    }
  }

  lemma {:induction false} CleanPathOf(name: string, absolute: bool, cs: seq<string>)
    requires Spells(name, absolute, cs)
    ensures absolute ==> CleanPath(name) == (CleanComponents([], cs), true)
    ensures !absolute ==>
      var r := CleanRelative(0, [], cs); CleanPath(name) == (Dots(r.0) + r.1, r.0 == 0)
  {
    if absolute {
      SplitJoin([""] + cs);
      assert ([""] + cs)[1..] == cs;
      assert name == Join([""] + cs);
    } else {
      SplitJoin(cs);
      assert name == Join(cs);
    }
  }

  // ---- The rules of path.Clean ----------------------------------------------

  /** Components that may be left out: an empty one, a ".", a name before a "..". */
  predicate Idle(x: seq<string>) {
    || x == [""] || x == ["."]
    || (|x| == 2 && x[0] != "" && x[0] != "." && x[0] != ".." && x[1] == "..")
  }

  lemma {:induction false} IdleIsIdle(x: seq<string>, ups: nat, done: Path)
    requires Idle(x)
    ensures CleanComponents(done, x) == done && CleanRelative(ups, done, x) == (ups, done)
  {
    var none: seq<string> := [];
    if |x| == 1 {
      assert x[1..] == none;
    } else {
      assert x[1..] == [".."] && [".."][1..] == none;
      assert Parent(done + [x[0]]) == done;
      assert CleanComponents(done + [x[0]], [".."]) == CleanComponents(done, none);
      assert CleanRelative(ups, done + [x[0]], [".."]) == CleanRelative(ups, done, none);
    }
  }

  /** Repeated slashes, "." and a name followed by ".." make no difference to what a
      name means, wherever they stand, and neither does ".." right after the root. */
  lemma {:induction false} NamesMeanTheSame(name: string, name': string, absolute: bool,
      a: seq<string>, x: seq<string>, b: seq<string>)
    requires Spells(name, absolute, a + x + b) && Spells(name', absolute, a + b)
    requires Idle(x) || (absolute && a == [] && x == [".."])
    ensures CleanPath(name) == CleanPath(name')
    ensures forall h: Header, content :: Convert(h.(name := name), content) == Convert(h.(name := name'), content)
  {
    CleanPathOf(name, absolute, a + x + b);
    CleanPathOf(name', absolute, a + b);
    if absolute {
      var p := CleanComponents([], a);
      CleanInTwo([], a + x, b);
      CleanInTwo([], a, x);
      CleanInTwo([], a, b);
      if Idle(x) { IdleIsIdle(x, 0, p); } else { RootIsItsOwnParent(); }
    } else {
      var r := CleanRelative(0, [], a);
      CleanRelativeInTwo(0, [], a + x, b);
      CleanRelativeInTwo(0, [], a, x);
      CleanRelativeInTwo(0, [], a, b);
      IdleIsIdle(x, r.0, r.1);
    }
  }

  lemma {:induction false} RootIsItsOwnParent()
    ensures CleanComponents([], [".."]) == []
  {
    var none: seq<string> := [];
    assert [".."][1..] == none;
    assert CleanComponents([], none) == [];
  }

  /** The components that name something. */
  function Visible(cs: seq<string>): Path {
    if cs == [] then []
    else (if cs[0] == "" || cs[0] == "." then [] else [cs[0]]) + Visible(cs[1..])
  }

  /** name stands for p: its components are those of p, with any number of empty ones
      and "." between them, below the root with or without a leading slash. */
  ghost predicate Denotes(name: string, p: Path) {
    exists absolute, cs :: Spells(name, absolute, cs) && ".." !in cs && Visible(cs) == p
  }

  lemma {:induction false} VisibleIsCleaned(ups: nat, done: Path, cs: seq<string>)
    requires ".." !in cs
    ensures CleanComponents(done, cs) == done + Visible(cs)
    ensures CleanRelative(ups, done, cs) == (ups, done + Visible(cs))
    decreases |cs|
  {
    if cs != [] {
      var c := cs[0];
      if c == "" || c == "." {
        VisibleIsCleaned(ups, done, cs[1..]);
      } else {
        VisibleIsCleaned(ups, done + [c], cs[1..]);
        assert done + [c] + Visible(cs[1..]) == done + Visible(cs);
      }
    }
  }

  /** cleanPath undoes joining: a name is read as the path it stands for. */
  lemma {:induction false} CleanPathUndoesJoining(name: string, p: Path)
    requires Denotes(name, p)
    ensures CleanPath(name) == (p, true) && Clean(name) == p && ProperPath(p)
  {
    var absolute, cs :| Spells(name, absolute, cs) && ".." !in cs && Visible(cs) == p;
    CleanPathOf(name, absolute, cs);
    VisibleIsCleaned(0, [], cs);
    CleanOf(name, absolute, cs);
    VisibleIsProper(cs);
    assert [] + p == p && Dots(0) + p == p;
  }

  lemma {:induction false} CleanOf(name: string, absolute: bool, cs: seq<string>)
    requires Spells(name, absolute, cs)
    ensures Clean(name) == CleanComponents([], cs)
  {
    if absolute {
      CleanPathOf(name, absolute, cs);
      TargetOf(name, absolute, cs);
    } else {
      SplitJoin(cs);
      assert name == Join(cs);
    }
  }

  lemma {:induction false} VisibleIsProper(cs: seq<string>)
    requires ".." !in cs && NoSlash(cs)
    ensures ProperPath(Visible(cs))
  {
    if cs != [] { VisibleIsProper(cs[1..]); }
  }

  lemma {:induction false} VisibleProper(p: Path)
    requires ProperPath(p)
    ensures Visible(p) == p && ".." !in p
  {
    if p != [] {
      assert ProperName(p[0]);
      VisibleProper(p[1..]);
    }
  }

  lemma {:induction false} VisibleMore(a: seq<string>, c: string)
    requires c == "" || c == "."
    ensures Visible(a + [c]) == Visible(a) && Visible([c] + a) == Visible(a)
  {
    assert ([c] + a)[1..] == a;
    if a != [] {
      VisibleMore(a[1..], c);
      assert (a + [c])[1..] == a[1..] + [c];
    } else {
      assert a + [c] == [c] + a;
    }
  }

  lemma {:induction false} JoinEnds(p: Path)
    requires p != []
    ensures Join(p + [""]) == Join(p) + "/" && Join(["."] + p) == "." + "/" + Join(p)
  {
    assert (["."] + p)[1..] == p;
    if |p| == 1 {
      assert (p + [""])[1..] == [""] && Join([""]) == "";
    } else {
      JoinEnds(p[1..]);
      assert (p + [""])[1..] == p[1..] + [""];
    }
  }

  /** The usual ways to write a path. */
  lemma {:induction false} WaysToWrite(p: Path)
    requires ProperPath(p) && p != []
    ensures Denotes(Join(p), p) && Denotes("/" + Join(p), p)
    ensures Denotes(Join(p) + "/", p) && Denotes("/" + (Join(p) + "/"), p) && Denotes("." + "/" + Join(p), p)
  {
    VisibleProper(p);
    VisibleMore(p, "");
    VisibleMore(p, ".");
    JoinEnds(p);
    assert ProperName(p[0]) && NoSlash(p);
    hide *;
    Edges(p);
    JoinedDenotes(p, p);
    JoinedDenotes(p + [""], p);
    JoinedDenotes(["."] + p, p);
  }

  /** The usual ways to write the root. */
  lemma {:induction false} WaysToWriteTheRoot()
    ensures Denotes("", []) && Denotes("/", []) && Denotes(".", [])
  {
    RootSpelled("", false, "");
    RootSpelled("/", true, "");
    RootSpelled(".", false, ".");
  }

  lemma {:induction false} RootSpelled(name: string, absolute: bool, c: string)
    requires (c == "" || c == ".") && name == (if absolute then "/" else "") + c
    ensures Denotes(name, [])
  {
    var none: seq<string> := [];
    VisibleMore(none, c);
    assert none + [c] == [c];
    assert '/' !in c && c != "..";
    assert Spells(name, absolute, [c]);
    hide Visible, Join, Denotes, Spells;
    Witness(name, absolute, [c], none);
  }

  lemma {:induction false} Edges(p: Path)
    requires NoSlash(p) && ".." !in p
    ensures NoSlash(p + [""]) && ".." !in p + [""] && NoSlash(["."] + p) && ".." !in ["."] + p
  {
  }

  lemma {:induction false} JoinedDenotes(cs: seq<string>, p: Path)
    requires cs != [] && cs[0] != "" && NoSlash(cs) && ".." !in cs && Visible(cs) == p
    ensures Denotes(Join(cs), p) && Denotes("/" + Join(cs), p)
  {
    assert "" + Join(cs) == Join(cs);
    hide Visible, Join, Denotes, NoSlash;
    Witness(Join(cs), false, cs, p);
    Witness("/" + Join(cs), true, cs, p);
  }

  lemma {:induction false} Witness(name: string, absolute: bool, cs: seq<string>, p: Path)
    requires Spells(name, absolute, cs) && ".." !in cs && Visible(cs) == p
    ensures Denotes(name, p)
  {
  }

  // ---- Names that climb out ---------------------------------------------------

  /** How far below its start a walk of the names ends, counting up as negative. */
  function Depth(cs: seq<string>): int {
    if cs == [] then 0
    else
      var c := cs[|cs| - 1];
      Depth(cs[..|cs| - 1]) + if c == "" || c == "." then 0 else if c == ".." then -1 else 1
  }

  ghost predicate Climbs(cs: seq<string>) {
    exists i :: 0 <= i <= |cs| && Depth(cs[..i]) < 0
  }

  lemma {:induction false} CleanRelativeDepth(cs: seq<string>)
    ensures var r := CleanRelative(0, [], cs); |r.1| - r.0 == Depth(cs) && (r.0 > 0 <==> Climbs(cs))
  {
    if cs == [] {
      assert forall i :: 0 <= i <= |cs| ==> cs[..i] == cs;
    } else {
      var init, c := cs[..|cs| - 1], cs[|cs| - 1];
      CleanRelativeDepth(init);
      ClimbsNext(cs);
      assert cs == init + [c];
      CleanRelativeInTwo(0, [], init, [c]);
      var r := CleanRelative(0, [], init);
      OneMore(r.0, r.1, c);
    }
  }

  lemma {:induction false} OneMore(ups: nat, done: Path, c: string)
    ensures CleanRelative(ups, done, [c]) ==
      if c == "" || c == "." then (ups, done)
      else if c != ".." then (ups, done + [c])
      else if done == [] then (ups + 1, []) else (ups, Parent(done))
  {
    var none: seq<string> := [];
    assert [c][1..] == none;
    assert forall u: nat, d :: CleanRelative(u, d, none) == (u, d);
  }

  lemma {:induction false} ClimbsNext(cs: seq<string>)
    requires cs != []
    ensures Climbs(cs) <==> Climbs(cs[..|cs| - 1]) || Depth(cs) < 0
  {
    var init := cs[..|cs| - 1];
    assert forall i :: 0 <= i <= |init| ==> init[..i] == cs[..i];
    assert cs[..|cs|] == cs;
  }

  /** A name is refused exactly when it is relative and somewhere on the way has gone
      up more often than down. */
  lemma {:induction false} RefusedExactly(name: string, absolute: bool, cs: seq<string>)
    requires Spells(name, absolute, cs)
    ensures !CleanPath(name).1 <==> !absolute && Climbs(cs)
  {
    CleanPathOf(name, absolute, cs);
    CleanRelativeDepth(cs);
  }

  // ---- Entries ------------------------------------------------------------------

  /** The metadata of an entry is the header's: permission bits alone, no negative
      owner. */
  predicate TakenFrom(m: Meta, h: Header) {
    && m.perm < 0x1000 && (h.mode - m.perm) % 0x1000 == 0
    && m.uid == (if h.uid < 0 then 0 else h.uid) && m.gid == (if h.gid < 0 then 0 else h.gid)
    && m.mtime == h.mtime && m.xattrs == h.xattrs
  }

  predicate Unsparse(h: Header) {
    !h.flag.GnuSparse? && !h.paxSparse
  }

  /** A name whose last component begins with ".wh." is a marker, whatever the type:
      of its directory, of the name after the prefix, or of nothing. */
  lemma {:induction false} MarkersMean(h: Header, d: Path, n: string, content: Key)
    requires Denotes(h.name, d + [".wh." + n]) && Unsparse(h)
    ensures Convert(h, content) ==
      if n == ".wh..opq" then Entry.Entry(d, Opaque)
      else if n == "" then Entry.Entry(d + [".wh."], Skip("whiteout without a name"))
      else Entry.Entry(d + [n], Whiteout)
  {
    var base := ".wh." + n;
    CleanPathUndoesJoining(h.name, d + [base]);
    hide CleanPath, Denotes, ProperPath;
    assert Base(d + [base]) == base && Parent(d + [base]) == d;
    assert base[4..] == n && WHITEOUT_PREFIX <= base;
    assert ".wh." + ".wh..opq" == OPAQUE_WHITEOUT;
    assert base == OPAQUE_WHITEOUT ==> n == OPAQUE_WHITEOUT[4..];
    assert n == "" ==> base == ".wh.";
  }

  predicate Marker(p: Path) {
    p != [] && ".wh." <= p[|p| - 1]
  }

  /** Any other name is placed with the kind of its header's type, everything taken
      from the header, a hard link with the path its target stands for. */
  lemma {:induction false} EntriesMean(h: Header, p: Path, content: Key)
    requires Denotes(h.name, p) && Unsparse(h) && !Marker(p)
    ensures Convert(h, content).path == p
    ensures match h.flag
      case Reg => Placed(h, content, File(content))
      case Cont => Placed(h, content, File(content))
      case DirFlag => Placed(h, content, Dir(false))
      case SymlinkFlag => Placed(h, content, Symlink(h.linkname))
      case CharFlag => Placed(h, content, CharDevice(AtLeastZero(h.major), AtLeastZero(h.minor)))
      case BlockFlag => Placed(h, content, BlockDevice(AtLeastZero(h.major), AtLeastZero(h.minor)))
      case FifoFlag => Placed(h, content, Fifo)
      case LinkFlag => true
      case _ => Convert(h, content).action == Skip("unsupported type")
  {
    CleanPathUndoesJoining(h.name, p);
    hide CleanPath, Denotes, ProperPath;
    ModeBits(h.mode);
  }

  lemma {:induction false} ModeBits(mode: int)
    ensures 0 <= mode % 0x1000 < 0x1000 && (mode - mode % 0x1000) % 0x1000 == 0
  {
  }

  function AtLeastZero(n: int): nat {
    if n > 0 then n else 0
  }

  predicate Placed(h: Header, content: Key, kind: Kind) {
    var a := Convert(h, content).action;
    a.Place? && a.info.kind == kind && TakenFrom(a.info.meta, h)
  }

  /** A hard link header is a link to the path its target stands for. */
  lemma {:induction false} HardLinksMean(h: Header, p: Path, t: Path, content: Key)
    requires Denotes(h.name, p) && !Marker(p) && h.flag.LinkFlag? && !h.paxSparse && Denotes(h.linkname, t)
    ensures Convert(h, content).path == p
    ensures Convert(h, content).action.HardLink? && Convert(h, content).action.target == t
    ensures TakenFrom(Convert(h, content).action.meta, h)
  {
    CleanPathUndoesJoining(h.name, p);
    CleanPathUndoesJoining(h.linkname, t);
    hide CleanPath, Denotes, ProperPath;
    ModeBits(h.mode);
  }

  /** One whose target climbs out of the root is left out, and no other. */
  lemma {:induction false} HardLinksStayInside(h: Header, p: Path, absolute: bool, cs: seq<string>, content: Key)
    requires Denotes(h.name, p) && !Marker(p) && h.flag.LinkFlag? && !h.paxSparse
    requires Spells(h.linkname, absolute, cs)
    ensures Convert(h, content) == Entry.Entry(p, Skip("hard link target escapes the root")) <==>
      !absolute && Climbs(cs)
  {
    CleanPathUndoesJoining(h.name, p);
    RefusedExactly(h.linkname, absolute, cs);
    hide CleanPath, Denotes, ProperPath, Climbs, Spells;
  }

  /** What is left out whatever its name: a name that climbs out, a sparse file. */
  lemma {:induction false} LeftOutMean(h: Header, absolute: bool, cs: seq<string>, content: Key)
    requires Spells(h.name, absolute, cs)
    ensures Convert(h, content).action == Skip("path escapes the root") <==> !absolute && Climbs(cs)
    ensures Convert(h, content).action == Skip("sparse file") <==> (absolute || !Climbs(cs)) && !Unsparse(h)
  {
    RefusedExactly(h.name, absolute, cs);
  }
}
