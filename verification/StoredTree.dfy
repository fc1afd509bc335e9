/** Emitting the merged tree as stored directory objects: emitDir of
    rootfs/builder.go over the directory builder of store/dir.go. Objects are
    addressed by a collision-free hash of their content. */
module StoredTree {
  import opened Wrappers
  import opened PathMap
  import opened MergeTree
  import opened ByteOrder

  datatype Payload =
    | DirKey(key: Key)
    | FileKey(content: Key)
    | LinkTarget(target: string)
    | CharRdev(major: nat, minor: nat)
    | BlockRdev(major: nat, minor: nat)
    | NoPayload

  datatype StoredEntry = StoredEntry(name: string, payload: Payload, meta: Meta)

  type DirObject = seq<StoredEntry>

  type Objects = map<Key, DirObject>

  predicate LegalName(c: string) {
    c != "" && c != "." && c != ".." && '/' !in c && '\0' !in c
  }

  /** The legal names are those a walk takes for the name of an entry, without NUL. */
  lemma {:induction false} LegalNames(c: string)
    ensures LegalName(c) <==> ProperName(c) && '\0' !in c
  {
  }

  function Names(o: DirObject): (r: seq<string>)
    ensures |r| == |o| && forall i :: 0 <= i < |o| ==> r[i] == o[i].name
  {
    seq(|o|, i requires 0 <= i < |o| => o[i].name)
  }

  ghost predicate CollisionFree(hash: DirObject -> Key) {
    forall a, b :: hash(a) == hash(b) ==> a == b
  }

  ghost predicate Addressed(hash: DirObject -> Key, objects: Objects) {
    forall k :: k in objects ==> hash(objects[k]) == k
  }

  ghost predicate Grows(o: Objects, o': Objects) {
    forall k :: k in o ==> k in o' && o'[k] == o[k]
  }

  /** The store behind a Writer: an object that is already there is kept. */
  class ObjectStore {
    const hash: DirObject -> Key
    var objects: Objects

    ghost predicate Valid()
      reads this
    {
      CollisionFree(hash) && Addressed(hash, objects)
    }

    constructor (hash: DirObject -> Key)
      requires CollisionFree(hash)
      ensures Valid() && objects == map[] && this.hash == hash
    {
      this.hash := hash;
      objects := map[];
    }

    method Emit(o: DirObject) returns (k: Key)
      requires Valid()
      modifies this
      ensures Valid() && k in objects && objects[k] == o && Grows(old(objects), objects)
    {
      k := hash(o);
      if k !in objects { objects := objects[k := o]; }
    }
  }

  predicate ValidPayload(p: Payload) {
    p.LinkTarget? ==> p.target != ""
  }

  /** One directory object being built: names must come in increasing order. */
  class DirBuilder {
    var entries: DirObject
    var last: string
    var n: nat
    var finished: bool

    ghost predicate Valid()
      reads this`entries, this`last, this`n
    {
      n == |entries| && Increasing(Names(entries)) && (n > 0 ==> last == entries[n - 1].name)
    }

    constructor ()
      ensures Valid() && entries == [] && !finished
    {
      entries, last, n, finished := [], "", 0, false;
    }

    method AddEntry(e: StoredEntry) returns (ok: bool)
      requires Valid()
      modifies this`entries, this`last, this`n
      ensures Valid()
      ensures ok <==> !finished && LegalName(e.name) && ValidPayload(e.payload) &&
                      (old(entries) == [] || Less(old(entries)[|old(entries)| - 1].name, e.name))
      ensures entries == if ok then old(entries) + [e] else old(entries)
    {
      if finished { return false; }
      if !LegalName(e.name) { return false; }
      if n > 0 && !Less(last, e.name) { return false; }
      if !ValidPayload(e.payload) { return false; }
      forall i | 0 <= i < n ensures Less(entries[i].name, e.name) {
        assert Names(entries)[i] == entries[i].name;
        if i < n - 1 {
          assert Less(Names(entries)[i], Names(entries)[n - 1]);
          LessTransitive(entries[i].name, last, e.name);
        }
      }
      assert Names(entries + [e]) == Names(entries) + [e.name];
      entries, last, n := entries + [e], e.name, n + 1;
      return true;
    }

    /** Finish: the directory's object goes to the store, once. */
    method Finish(w: ObjectStore) returns (ok: bool, k: Key)
      requires w.Valid()
      modifies this`finished, w
      ensures w.Valid() && finished && ok == !old(finished) && Grows(old(w.objects), w.objects)
      ensures ok ==> k in w.objects && w.objects[k] == entries
    {
      if finished {
        return false, 0;
      }
      finished := true;
      k := w.Emit(entries);
      return true, k;
    }
  }

  // ---- What it means for a tree to be stored --------------------------

  type KeyMap = map<Path, Key>

  /** The payload a node of this kind is stored with; key is its directory's. */
  function PayloadOf(kind: Kind, key: Key): Payload {
    match kind
    case Dir(_) => DirKey(key)
    case File(c) => FileKey(c)
    case Symlink(t) => LinkTarget(t)
    case CharDevice(a, b) => CharRdev(a, b)
    case BlockDevice(a, b) => BlockRdev(a, b)
    case Fifo => NoPayload
  }

  /** What is stored for the entry at x: a file's content key, a link's target, a
      device's two numbers, a directory's own key. */
  ghost predicate Carries(f: Flat, keyOf: KeyMap, x: Path, payload: Payload)
    requires x in f
  {
    match f[x].kind
    case File(c) => payload == FileKey(c)
    case Symlink(t) => payload == LinkTarget(t)
    case CharDevice(a, b) => payload == CharRdev(a, b)
    case BlockDevice(a, b) => payload == BlockRdev(a, b)
    case Fifo => payload == NoPayload
    case Dir(_) => x in keyOf && payload == DirKey(keyOf[x])
  }

  ghost predicate EntryMatches(f: Flat, keyOf: KeyMap, q: Path, e: StoredEntry) {
    var x := q + [e.name];
    x in f && e.meta == f[x].meta && Carries(f, keyOf, x, e.payload)
  }

  /** The object under keyOf[q] lists exactly the children of q, in name order. */
  ghost predicate Holds(objects: Objects, f: Flat, keyOf: KeyMap, q: Path) {
    && q in keyOf && keyOf[q] in objects
    && var o := objects[keyOf[q]];
       && Increasing(Names(o))
       && (forall i :: 0 <= i < |o| ==> EntryMatches(f, keyOf, q, o[i]))
       && (forall x :: x in f && x != [] && Parent(x) == q ==> Base(x) in Names(o))
  }

  /** The directories among the paths of s. */
  ghost function DirsIn(f: Flat, s: set<Path>): set<Path> {
    set q | q in s && q in f && f[q].kind.Dir?
  }

  /** Every directory from p down is stored under its key. */
  ghost predicate StoredFrom(objects: Objects, f: Flat, keyOf: KeyMap, p: Path) {
    && keyOf.Keys == DirsIn(f, {p} + Below(f, p))
    && forall q {:trigger Holds(objects, f, keyOf, q)} :: q in keyOf ==> Holds(objects, f, keyOf, q)
  }

  function Below(f: Flat, p: Path): set<Path> {
    set x | x in f && p < x
  }

  /** The entry at x can be stored: a legal name, and no empty link target. */
  predicate StorableAt(f: Flat, x: Path) {
    x in f && LegalName(Base(x)) && (f[x].kind.Symlink? ==> f[x].kind.target != "")
  }

  ghost predicate Storable(f: Flat, p: Path) {
    forall x :: x in Below(f, p) ==> StorableAt(f, x)
  }

  // ---- Emitting a directory -------------------------------------------

  /** What is below p under one of names. */
  ghost function Part(f: Flat, p: Path, names: seq<string>): set<Path> {
    set x | x in f && p < x && x[|p|] in names
  }

  lemma {:induction false} UnderChild(p: Path, c: string, x: Path)
    ensures p + [c] <= x <==> p < x && x[|p|] == c
    ensures p + [c] <= x <==> p + [c] == x || p + [c] < x
  {
    var q := p + [c];
    if q <= x {
      assert q == x[..|q|];
      assert p == q[..|p|] == x[..|p|];
    }
    if p < x && x[|p|] == c {
      assert p == x[..|p|];
      assert x[..|q|] == q;
    }
    PrefixCases(q, x);
  }

  lemma {:induction false} PartStep(f: Flat, p: Path, names: seq<string>, c: string)
    requires c !in names && p + [c] in f
    ensures Part(f, p, names + [c]) == Part(f, p, names) + {p + [c]} + Below(f, p + [c])
    ensures |Part(f, p, names + [c])| == |Part(f, p, names)| + 1 + |Below(f, p + [c])|
  {
    var q := p + [c];
    forall x ensures x in Part(f, p, names + [c]) <==> x in Part(f, p, names) + {q} + Below(f, q) {
      UnderChild(p, c, x);
    }
    forall x | x in Part(f, p, names) ensures x != q && x !in Below(f, q) { UnderChild(p, c, x); }
    assert q !in Below(f, q);
    assert Part(f, p, names) !! ({q} + Below(f, q));
    assert Part(f, p, names + [c]) == Part(f, p, names) + ({q} + Below(f, q));
  }

  lemma {:induction false} PartAll(f: Flat, p: Path, names: seq<string>)
    requires WellFormed(f) && forall c :: p + [c] in f ==> c in names
    ensures Part(f, p, names) == Below(f, p)
  {
    forall x | x in Below(f, p) ensures x in Part(f, p, names) {
      var q := p + [x[|p|]];
      UnderChild(p, x[|p|], x);
      if q != x { AncestorIsDir(f, q, x); }
    }
  }

  lemma {:induction false} BelowChild(f: Flat, p: Path, c: string)
    requires p + [c] in f
    ensures |Below(f, p + [c])| < |Below(f, p)|
    ensures Below(f, p + [c]) + {p + [c]} <= Below(f, p)
  {
    var q := p + [c];
    forall x | x in Below(f, q) ensures x in Below(f, p) { UnderChild(p, c, x); }
    UnderChild(p, c, q);
    SubsetSize(Below(f, q) + {q}, Below(f, p));
  }

  ghost predicate Extends(k: KeyMap, k': KeyMap) {
    forall q :: q in k ==> q in k' && k'[q] == k[q]
  }

  lemma {:induction false} HoldsGrows(o: Objects, o': Objects, f: Flat, k: KeyMap, k': KeyMap, q: Path)
    requires Holds(o, f, k, q) && Grows(o, o') && Extends(k, k')
    ensures Holds(o', f, k', q)
  {
  }

  /** The state of emitDir's loop: the children under names are done. */
  ghost predicate Partial(o: Objects, f: Flat, k: KeyMap, p: Path, names: seq<string>, es: DirObject) {
    && Names(es) == names
    && k.Keys == DirsIn(f, Part(f, p, names))
    && (forall q {:trigger Holds(o, f, k, q)} :: q in k ==> Holds(o, f, k, q))
    && (forall i :: 0 <= i < |es| ==> EntryMatches(f, k, p, es[i]))
    && (forall x :: x in Part(f, p, names) ==> StorableAt(f, x))
  }

  /** One more child: kc is the key map of the child's subtree, empty unless it
      is a directory. */
  lemma {:induction false} PartialStep(o: Objects, o': Objects, f: Flat, k: KeyMap, kc: KeyMap, p: Path,
                    names: seq<string>, es: DirObject, e: StoredEntry)
    requires WellFormed(f) && Partial(o, f, k, p, names, es) && Grows(o, o')
    requires e.name !in names && p + [e.name] in f && StorableAt(f, p + [e.name]) && Storable(f, p + [e.name])
    requires if f[p + [e.name]].kind.Dir? then StoredFrom(o', f, kc, p + [e.name]) else kc == map[]
    requires EntryMatches(f, kc, p, e)
    ensures Partial(o', f, k + kc, p, names + [e.name], es + [e])
  {
    hide Holds, Part, DirsIn, EntryMatches, Below, WellFormed, StorableAt, Grows, Extends;
    var q := p + [e.name];
    var k' := k + kc;
    PartStep(f, p, names, e.name);
    ChildKeys(f, kc, q);
    PartApart(f, p, names, e.name);
    KeysJoin(f, k, kc, Part(f, p, names), {q} + Below(f, q));
    assert Part(f, p, names + [e.name]) == Part(f, p, names) + ({q} + Below(f, q));
    forall x | x in k' ensures Holds(o', f, k', x) {
      if x in kc { HoldsGrows(o', o', f, kc, k', x); } else { HoldsGrows(o, o', f, k, k', x); }
    }
    forall i | 0 <= i < |es + [e]| ensures EntryMatches(f, k', p, (es + [e])[i]) {
      if i < |es| { MatchesGrows(f, k, k', p, es[i]); } else { MatchesGrows(f, kc, k', p, e); }
    }
  }

  lemma {:induction false} ChildKeys(f: Flat, kc: KeyMap, q: Path)
    requires WellFormed(f) && q in f
    requires if f[q].kind.Dir? then kc.Keys == DirsIn(f, {q} + Below(f, q)) else kc == map[]
    ensures kc.Keys == DirsIn(f, {q} + Below(f, q))
  {
    if !f[q].kind.Dir? { NothingUnder(f, q); }
  }

  lemma {:induction false} KeysJoin(f: Flat, k: KeyMap, kc: KeyMap, a: set<Path>, b: set<Path>)
    requires k.Keys == DirsIn(f, a) && kc.Keys == DirsIn(f, b) && a !! b
    ensures (k + kc).Keys == DirsIn(f, a + b)
    ensures Extends(k, k + kc) && Extends(kc, k + kc)
  {
  }

  lemma {:induction false} PartApart(f: Flat, p: Path, names: seq<string>, c: string)
    requires c !in names
    ensures Part(f, p, names) !! ({p + [c]} + Below(f, p + [c]))
  {
    forall x | x in Part(f, p, names) ensures x != p + [c] && x !in Below(f, p + [c]) { UnderChild(p, c, x); }
  }

  lemma {:induction false} MatchesGrows(f: Flat, k: KeyMap, k': KeyMap, q: Path, e: StoredEntry)
    requires EntryMatches(f, k, q, e) && Extends(k, k')
    ensures EntryMatches(f, k', q, e)
  {
  }

  lemma {:induction false} PartialNames(o: Objects, f: Flat, k: KeyMap, p: Path, names: seq<string>, es: DirObject)
    requires Partial(o, f, k, p, names, es)
    ensures |es| == |names| && (es != [] ==> es[|es| - 1].name == names[|names| - 1])
  {
    assert es != [] ==> Names(es)[|es| - 1] == es[|es| - 1].name;
  }

  /** All children are done and the directory's own object is in the store. */
  lemma {:induction false} PartialFinish(o: Objects, o': Objects, f: Flat, k: KeyMap, p: Path, names: seq<string>,
      es: DirObject, key: Key)
    requires WellFormed(f) && IsDir(f, p) && Partial(o, f, k, p, names, es) && Grows(o, o')
    requires Increasing(names) && key in o' && o'[key] == es
    requires forall c :: p + [c] in f ==> c in names
    ensures StoredFrom(o', f, k[p := key], p)
    ensures Storable(f, p) && |Part(f, p, names)| == |Below(f, p)|
  {
    PartAll(f, p, names);
    var k' := k[p := key];
    assert p !in k;
    forall q | q in k' ensures Holds(o', f, k', q) {
      if q != p { HoldsGrows(o, o', f, k, k', q); }
      else {
        forall x | x in f && x != [] && Parent(x) == p ensures Base(x) in Names(es) {
          assert x == p + [Base(x)];
        }
        forall i | 0 <= i < |es| ensures EntryMatches(f, k', p, es[i]) {
          assert EntryMatches(f, k, p, es[i]);
        }
      }
    }
    assert k'.Keys == DirsIn(f, {p} + Below(f, p));
  }

  datatype EmitResult = Emitted(key: Key, count: nat) | Rejected

  lemma {:induction false} ChildrenOf(t: Tree, p: Path)
    requires t.Valid() && p in t.at
    ensures WellFormed(t.View())
    ensures forall c :: c in t.at[p].children <==> p + [c] in t.View()
    ensures forall c :: c in t.at[p].children ==> t.at[p].children[c] == t.at[p + [c]]
  {
    hide Tidy;
    InfosWellFormed(t.at, t.KidsOf());
    forall c ensures c in t.at[p].children <==> p + [c] in t.at { t.ChildAt(p, c); }
    forall c | c in t.at[p].children ensures t.at[p].children[c] == t.at[p + [c]] { t.ChildAt(p, c); }
  }

  /** Writes the directory at p bottom-up, entries in name order, and counts
      the entries below it. */
  method EmitDir(w: ObjectStore, t: Tree, dir: Node, ghost p: Path) returns (r: EmitResult, ghost keyOf: KeyMap)
    requires w.Valid() && t.Valid() && p in t.at && t.at[p] == dir && dir.info.kind.Dir?
    modifies w
    ensures w.Valid() && Grows(old(w.objects), w.objects)
    ensures r.Emitted? <==> Storable(t.View(), p)
    ensures r.Emitted? ==> StoredFrom(w.objects, t.View(), keyOf, p) && p in keyOf && keyOf[p] == r.key
    ensures r.Emitted? ==> r.count == |Below(t.View(), p)|
    decreases |Below(t.View(), p)|, 1
  {
    hide *;
    ghost var f := t.View();
    ChildrenOf(t, p);
    keyOf := map[];
    var d := new DirBuilder();
    var count := 0;
    var names := SortedNames(dir.children.Keys);
    PartialEmpty(w.objects, f, p);
    GrowsTransitive(w.objects, w.objects, w.objects);
    assert names[..0] == [];
    for i := 0 to |names|
      invariant w.Valid() && Grows(old(w.objects), w.objects) && d.Valid() && fresh(d) && !d.finished
      invariant Partial(w.objects, f, keyOf, p, names[..i], d.entries)
      invariant count == |Part(f, p, names[..i])|
    {
      var ok, n;
      assert names[..i + 1] == names[..i] + [names[i]];
      IncreasingStep(names, i);
      ghost var o := w.objects;
      ok, n, keyOf := EmitChild(w, t, dir, p, d, names[i], names[..i], keyOf);
      GrowsTransitive(old(w.objects), o, w.objects);
      if !ok { return Rejected, keyOf; }
      count := count + n;
    }
    assert names[..|names|] == names;
    ghost var o := w.objects;
    var _, k := d.Finish(w);
    GrowsTransitive(old(w.objects), o, w.objects);
    assert IsDir(f, p) by { DirInView(t, p); }
    PartialFinish(o, w.objects, f, keyOf, p, names, d.entries, k);
    keyOf := keyOf[p := k];
    return Emitted(k, count), keyOf;
  }

  lemma {:induction false} DirInView(t: Tree, p: Path)
    requires p in t.at && t.at[p].info.kind.Dir?
    ensures IsDir(t.View(), p)
  {
  }

  lemma {:induction false} GrowsTransitive(a: Objects, b: Objects, c: Objects)
    ensures Grows(a, a)
    ensures Grows(a, b) && Grows(b, c) ==> Grows(a, c)
  {
  }

  lemma {:induction false} PartialEmpty(o: Objects, f: Flat, p: Path)
    ensures Partial(o, f, map[], p, [], []) && Part(f, p, []) == {}
  {
  }

  lemma {:induction false} IncreasingStep(names: seq<string>, i: nat)
    requires Increasing(names) && i < |names|
    ensures names[i] !in names[..i]
    ensures i > 0 ==> Less(names[i - 1], names[i])
  {
    LessIrreflexive(names[i]);
  }

  /** One child of the directory at p, named c, after the ones in done. */
  method EmitChild(w: ObjectStore, t: Tree, dir: Node, ghost p: Path, d: DirBuilder, c: string,
                   ghost done: seq<string>, ghost k: KeyMap)
    returns (ok: bool, n: nat, ghost k': KeyMap)
    requires w.Valid() && t.Valid() && p in t.at && t.at[p] == dir && dir.info.kind.Dir?
    requires c in dir.children && c !in done && d.Valid() && Partial(w.objects, t.View(), k, p, done, d.entries)
    requires done != [] ==> Less(done[|done| - 1], c)
    requires !d.finished
    modifies w, d
    ensures w.Valid() && Grows(old(w.objects), w.objects) && d.Valid() && !d.finished
    ensures !ok ==> !Storable(t.View(), p)
    ensures ok ==> Partial(w.objects, t.View(), k', p, done + [c], d.entries)
    ensures ok ==> |Part(t.View(), p, done + [c])| == |Part(t.View(), p, done)| + n
    decreases |Below(t.View(), p)|, 0
  {
    hide *;
    ghost var f, q, o := t.View(), p + [c], w.objects;
    ChildFacts(t, p, c);
    PartialNames(o, f, k, p, done, d.entries);
    PartStep(f, p, done, c);
    var child := dir.children[c];
    var sub, kc := EmitNode(w, t, child, q);
    k' := k;
    if sub.Rejected? { return false, 0, k; }
    n := 1 + sub.count;
    var e := StoredEntry(c, PayloadOf(child.info.kind, sub.key), child.info.meta);
    StorableEntry(f, p, e, sub.key);
    ghost var es := d.entries;
    ok := d.AddEntry(e);
    if !ok { return false, 0, k; }
    EntryOf(f, kc, p, e, sub.key);
    PartialStep(o, w.objects, f, k, kc, p, done, es, e);
    k' := k + kc;
  }

  lemma {:induction false} ChildFacts(t: Tree, p: Path, c: string)
    requires t.Valid() && p in t.at && c in t.at[p].children
    ensures WellFormed(t.View()) && p + [c] in t.at && t.at[p].children[c] == t.at[p + [c]]
    ensures p + [c] in t.View() && t.View()[p + [c]] == t.at[p].children[c].info
    ensures p + [c] in Below(t.View(), p) && |Below(t.View(), p + [c])| < |Below(t.View(), p)|
    ensures Storable(t.View(), p) ==> Storable(t.View(), p + [c]) && StorableAt(t.View(), p + [c])
  {
    ChildrenOf(t, p);
    BelowChild(t.View(), p, c);
  }

  lemma {:induction false} StorableEntry(f: Flat, p: Path, e: StoredEntry, key: Key)
    requires p + [e.name] in f && e.payload == PayloadOf(f[p + [e.name]].kind, key)
    ensures StorableAt(f, p + [e.name]) <==> LegalName(e.name) && ValidPayload(e.payload)
  {
  }

  lemma {:induction false} EntryOf(f: Flat, kc: KeyMap, p: Path, e: StoredEntry, key: Key)
    requires p + [e.name] in f && e.meta == f[p + [e.name]].meta
    requires e.payload == PayloadOf(f[p + [e.name]].kind, key)
    requires f[p + [e.name]].kind.Dir? ==> p + [e.name] in kc && kc[p + [e.name]] == key
    ensures EntryMatches(f, kc, p, e)
  {
  }

  /** The subtree at q: a directory is emitted, anything else has none. */
  method EmitNode(w: ObjectStore, t: Tree, child: Node, ghost q: Path) returns (r: EmitResult, ghost kc: KeyMap)
    requires w.Valid() && t.Valid() && q in t.at && t.at[q] == child
    modifies w
    ensures w.Valid() && Grows(old(w.objects), w.objects)
    ensures r.Emitted? <==> Storable(t.View(), q)
    ensures r.Emitted? ==>
      if child.info.kind.Dir? then StoredFrom(w.objects, t.View(), kc, q) && q in kc && kc[q] == r.key
      else kc == map[]
    ensures r.Emitted? ==> r.count == |Below(t.View(), q)|
    decreases |Below(t.View(), q)|, 2
  {
    hide Tidy, StoredFrom;
    if child.info.kind.Dir? {
      r, kc := EmitDir(w, t, child, q);
    } else {
      ChildrenOf(t, q);
      NothingUnder(t.View(), q);
      r, kc := Emitted(0, 0), map[];
    }
  }

  lemma {:induction false} NothingUnder(f: Flat, q: Path)
    requires WellFormed(f) && !IsDir(f, q)
    ensures Below(f, q) == {}
  {
    forall x | x in f && q < x ensures false { AncestorIsDir(f, q, x); }
  }

  /** Builder.Write: stores the whole tree under one root key. */
  method WriteTree(w: ObjectStore, t: Tree) returns (r: EmitResult, ghost keyOf: KeyMap)
    requires w.Valid() && t.Valid()
    modifies w
    ensures w.Valid() && Grows(old(w.objects), w.objects)
    ensures r.Emitted? <==> Storable(t.View(), [])
    ensures r.Emitted? ==> StoredFrom(w.objects, t.View(), keyOf, []) && keyOf[[]] == r.key
    ensures r.Emitted? ==> r.count == |t.View()| - 1
  {
    hide Tidy;
    ghost var f := t.View();
    r, keyOf := EmitDir(w, t, t.root, []);
    assert Below(f, []) == f.Keys - {[]};
  }
}
