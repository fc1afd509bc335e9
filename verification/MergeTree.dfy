/** The mutable tree of rootfs/tree.go and the builder of rootfs/builder.go:
    nodes on the heap, children maps updated in place. */
module MergeTree {
  import opened PathMap
  import opened Merge

  /** One entry of the merged tree. Only a directory has children. */
  class Node {
    const info: Info
    var children: map<string, Node>

    constructor (info: Info, children: map<string, Node>)
      ensures this.info == info && this.children == children
    {
      this.info := info;
      this.children := children;
    }
  }

  type Nodes = map<Path, Node>
  type Kids = map<Path, map<string, Node>>

  /** at gives the node at every path and kids its children: together a finite
      tree below a root directory in which no node is shared. */
  ghost predicate Tidy(at: Nodes, kids: Kids) {
    && at.Keys == kids.Keys
    && [] in at && at[[]].info.kind.Dir?
    && Unshared(at)
    && (forall p {:trigger Hangs(at, kids, p)} :: p in at ==> Hangs(at, kids, p))
    && (forall p {:trigger Opens(at, kids, p)} :: p in at ==> Opens(at, kids, p))
  }

  ghost predicate Unshared(at: Nodes) {
    forall p, q {:trigger Apart(at, p, q)} :: p in at && q in at ==> Apart(at, p, q)
  }

  ghost predicate Apart(at: Nodes, p: Path, q: Path)
    requires p in at && q in at
  {
    p != q ==> at[p] != at[q]
  }

  /** The node at p is its parent's child under p's last component. */
  ghost predicate Hangs(at: Nodes, kids: Kids, p: Path)
    requires at.Keys == kids.Keys && p in at
  {
    p != [] ==>
      && Parent(p) in at
      && Base(p) in kids[Parent(p)]
      && kids[Parent(p)][Base(p)] == at[p]
  }

  /** The children of the node at p are in the tree, and only a directory has any. */
  ghost predicate Opens(at: Nodes, kids: Kids, p: Path)
    requires at.Keys == kids.Keys && p in at
  {
    && (kids[p] != map[] ==> at[p].info.kind.Dir?)
    && forall c :: c in kids[p] ==> p + [c] in at
  }

  ghost function CutNodes<T>(at: map<Path, T>, q: Path): map<Path, T> {
    map p | p in at && !(q <= p) :: at[p]
  }

  ghost function CutNodesBelow<T>(at: map<Path, T>, q: Path): map<Path, T> {
    map p | p in at && !(q < p) :: at[p]
  }

  lemma {:induction false} PrefixStep(q: Path, p: Path)
    requires p != []
    ensures p == Parent(p) + [Base(p)]
    ensures q <= p <==> q <= Parent(p) || q == p
    ensures q < p <==> q <= Parent(p)
  {
    if q <= p && q != p { assert q == p[..|q|]; }
  }

  /** Hanging a fresh childless node at d/c, where nothing hangs, keeps the tree tidy. */
  lemma {:induction false} AddTidy(at: Nodes, kids: Kids, d: Path, c: string, n: Node)
    requires Tidy(at, kids) && d in at && at[d].info.kind.Dir? && n !in at.Values
    requires d + [c] !in at
    ensures Tidy(at[d + [c] := n], kids[d := kids[d][c := n]][d + [c] := map[]])
  {
    var q := d + [c];
    assert Parent(q) == d && Base(q) == c;
    var at', kids' := at[q := n], kids[d := kids[d][c := n]][q := map[]];
    forall x, y | x in at' && y in at' ensures Apart(at', x, y) {
      if x != q && y != q { assert Apart(at, x, y); }
    }
    forall p | p in at' ensures Hangs(at', kids', p) {
      if p != q && p != [] { assert Hangs(at, kids, p); assert p == Parent(p) + [Base(p)]; }
    }
    forall p | p in at' ensures Opens(at', kids', p) {
      if p != q { assert Opens(at, kids, p); }
    }
  }

  /** Putting a fresh directory in the place of the one at d/c, children and
      all, keeps the tree tidy. */
  lemma {:induction false} SwapTidy(at: Nodes, kids: Kids, d: Path, c: string, n: Node)
    requires Tidy(at, kids) && d in at && d + [c] in at && n !in at.Values && n.info.kind.Dir?
    ensures Tidy(at[d + [c] := n], kids[d := kids[d][c := n]])
  {
    var q := d + [c];
    assert Parent(q) == d && Base(q) == c;
    assert Hangs(at, kids, q) && Opens(at, kids, d);
    var at', kids' := at[q := n], kids[d := kids[d][c := n]];
    forall x, y | x in at' && y in at' ensures Apart(at', x, y) {
      if x != q && y != q { assert Apart(at, x, y); }
    }
    forall p | p in at' ensures Hangs(at', kids', p) {
      if p != q && p != [] { assert Hangs(at, kids, p); assert p == Parent(p) + [Base(p)]; }
    }
    forall p | p in at' ensures Opens(at', kids', p) {
      assert Opens(at, kids, p);
    }
  }

  lemma {:induction false} CutAt(at: Nodes, kids: Kids, d: Path, c: string, p: Path)
    requires Tidy(at, kids) && d in at
    ensures CutNodes(at, d + [c]).Keys == CutNodes(kids, d + [c])[d := kids[d] - {c}].Keys
    ensures p in CutNodes(at, d + [c]) ==>
      Hangs(CutNodes(at, d + [c]), CutNodes(kids, d + [c])[d := kids[d] - {c}], p)
    ensures p in CutNodes(at, d + [c]) ==>
      Opens(CutNodes(at, d + [c]), CutNodes(kids, d + [c])[d := kids[d] - {c}], p)
  {
    var q := d + [c];
    assert Parent(q) == d && Base(q) == c;
    if p in CutNodes(at, q) {
      if p != [] { PrefixStep(q, p); }
      assert Hangs(at, kids, p) && Opens(at, kids, p);
      forall x | x in kids[p] && p + [x] != q ensures p + [x] in CutNodes(at, q) {
        PrefixStep(q, p + [x]);
      }
    }
  }

  /** Removing d's child c keeps the tree tidy. */
  lemma {:induction false} DetachTidy(at: Nodes, kids: Kids, d: Path, c: string)
    requires Tidy(at, kids) && d in at
    ensures Tidy(CutNodes(at, d + [c]), CutNodes(kids, d + [c])[d := kids[d] - {c}])
  {
    forall p { CutAt(at, kids, d, c, p); }
    forall x, y | x in CutNodes(at, d + [c]) && y in CutNodes(at, d + [c])
      ensures Apart(CutNodes(at, d + [c]), x, y)
    {
      assert Apart(at, x, y);
    }
  }

  /** Hanging a fresh childless node at d/c, in the place of whatever is there,
      keeps the tree tidy. */
  lemma {:induction false} ReplaceTidy(at: Nodes, kids: Kids, d: Path, c: string, n: Node, kids': Kids)
    requires Tidy(at, kids) && d in at && at[d].info.kind.Dir? && n !in at.Values
    requires kids'.Keys == CutNodes(at, d + [c]).Keys + {d + [c]}
    requires d in kids' && kids'[d] == kids[d][c := n] && kids'[d + [c]] == map[]
    requires forall p :: p in kids' && p != d && p != d + [c] ==> kids'[p] == kids[p]
    ensures Tidy(CutNodes(at, d + [c])[d + [c] := n], kids')
  {
    var q := d + [c];
    var cut: Kids := CutNodes(kids, q)[d := kids[d] - {c}];
    DetachTidy(at, kids, d, c);
    AddTidy(CutNodes(at, q), cut, d, c, n);
    var kd: map<string, Node> := kids[d];
    var rest: map<string, Node> := kd - {c};
    assert rest[c := n] == kd[c := n];
    assert kids' == cut[d := cut[d][c := n]][q := map[]];
  }

  /** Nothing hangs below a node that is not a directory. */
  lemma {:induction false} NoNodesBelow(at: Nodes, kids: Kids, q: Path, n: Node)
    requires Tidy(at, kids) && !(q in at && at[q].info.kind.Dir?)
    ensures CutNodes(at, q)[q := n] == at[q := n]
  {
    InfosWellFormed(at, kids);
    forall p | p in at && p != q ensures !(q <= p) {
      assert p in Infos(at);
      if q < p { AncestorIsDir(Infos(at), q, p); }
    }
  }

  lemma {:induction false} InfosWellFormed(at: Nodes, kids: Kids)
    requires Tidy(at, kids)
    ensures WellFormed(Infos(at))
  {
    forall p | p in Infos(at) ensures Rooted(Infos(at), p) {
      assert Hangs(at, kids, p);
      if p != [] { assert Opens(at, kids, Parent(p)); }
    }
  }

  lemma {:induction false} EmptyAt(at: Nodes, kids: Kids, d: Path, p: Path)
    requires Tidy(at, kids) && d in at
    ensures CutNodesBelow(at, d).Keys == CutNodesBelow(kids, d)[d := map[]].Keys
    ensures p in CutNodesBelow(at, d) ==> Hangs(CutNodesBelow(at, d), CutNodesBelow(kids, d)[d := map[]], p)
    ensures p in CutNodesBelow(at, d) ==> Opens(CutNodesBelow(at, d), CutNodesBelow(kids, d)[d := map[]], p)
  {
    if p in CutNodesBelow(at, d) {
      if p != [] { PrefixStep(d, p); assert d < Parent(p) ==> d <= Parent(p); }
      assert Hangs(at, kids, p) && Opens(at, kids, p);
      if p != d {
        forall x | x in kids[p] ensures p + [x] in CutNodesBelow(at, d) {
          PrefixStep(d, p + [x]);
          assert Parent(p + [x]) == p;
          assert d <= p ==> d < p;
        }
      }
    }
  }

  /** Emptying the directory at d keeps the tree tidy. */
  lemma {:induction false} EmptyTidy(at: Nodes, kids: Kids, d: Path)
    requires Tidy(at, kids) && d in at
    ensures Tidy(CutNodesBelow(at, d), CutNodesBelow(kids, d)[d := map[]])
  {
    forall p { EmptyAt(at, kids, d, p); }
    forall x, y | x in CutNodesBelow(at, d) && y in CutNodesBelow(at, d)
      ensures Apart(CutNodesBelow(at, d), x, y)
    {
      assert Apart(at, x, y);
    }
  }

  ghost function Infos(at: Nodes): Flat {
    map p | p in at :: at[p].info
  }

  lemma {:induction false} InfosReplaced(at: Nodes, q: Path, n: Node)
    ensures Infos(CutNodes(at, q)[q := n]) == Cut(Infos(at), q)[q := n.info]
    ensures Infos(at[q := n]) == Infos(at)[q := n.info]
    ensures Infos(CutNodes(at, q)) == Cut(Infos(at), q)
    ensures Infos(CutNodesBelow(at, q)) == CutBelow(Infos(at), q)
  {
  }

  lemma {:induction false} ReplacedValues(at: Nodes, q: Path, n: Node)
    ensures (CutNodes(at, q)[q := n]).Values - at.Values <= {n}
    ensures (at[q := n]).Values - at.Values <= {n}
  {
  }

  /** stack holds the directories from the root down to the one at cur. */
  ghost predicate OnStack(at: Nodes, stack: seq<Node>, cur: Path)
    decreases |cur|
  {
    && cur in at && |stack| == |cur| + 1 && stack[|cur|] == at[cur]
    && (cur != [] ==> OnStack(at, stack[..|cur|], Parent(cur)))
  }

  lemma {:induction false} StackKept(at: Nodes, at': Nodes, stack: seq<Node>, cur: Path, q: Path)
    requires OnStack(at, stack, cur) && |q| > |cur|
    requires forall p :: p in at && p != q ==> p in at' && at'[p] == at[p]
    ensures OnStack(at', stack, cur)
    decreases |cur|
  {
    if cur != [] { StackKept(at, at', stack[..|cur|], Parent(cur), q); }
  }

  datatype Entered = Into(child: Node) | Follow(target: string) | Blocked

  datatype Resolved = Stack(nodes: seq<Node>) | NoStack | LoopError

  datatype Stepped = On(stack: seq<Node>, comps: seq<string>, hops: nat) | Stop(result: Resolved)

  datatype NodeFound = OneNode(node: Node) | NoNode | LoopOnTheWay

  class Tree {
    const root: Node
    ghost var at: Nodes

    ghost function KidsOf(): Kids
      reads this, at.Values
    {
      map p | p in at :: at[p].children
    }

    ghost predicate Valid()
      reads this, at.Values
    {
      Tidy(at, KidsOf()) && [] in at && at[[]] == root && root.info.kind.Dir?
    }

    /** The tree as a flat map. */
    ghost function View(): Flat
      reads this
    {
      Infos(at)
    }

    constructor ()
      ensures Valid() && fresh(at.Values)
      ensures View() == map[[] := IMPLICIT_DIR]
    {
      var r := new Node(IMPLICIT_DIR, map[]);
      root := r;
      at := map[[] := r];
    }

    /** A directory's children map and the tree agree. */
    lemma {:induction false} ChildAt(d: Path, c: string)
      requires Valid() && d in at
      ensures c in at[d].children <==> d + [c] in at
      ensures d + [c] in at ==> at[d + [c]] == at[d].children[c]
    {
      var q := d + [c];
      assert Parent(q) == d && Base(q) == c;
      assert Opens(at, KidsOf(), d);
      if q in at { assert Hangs(at, KidsOf(), q); }
    }

    /** dir.children[c] = n where the directory at d has no child c, or where
        the old child and what is below it go. */
    method Replace(dir: Node, ghost d: Path, c: string, n: Node)
      requires Valid() && d in at && at[d] == dir && dir.info.kind.Dir? && n !in at.Values
      requires n.children == map[]
      modifies this`at, dir`children
      ensures Valid()
      ensures at == old(CutNodes(at, d + [c]))[d + [c] := n]
      ensures View() == Cut(old(View()), d + [c])[d + [c] := n.info] && at.Values <= old(at.Values) + {n}
    {
      ghost var q, was, kids := d + [c], at, KidsOf();
      dir.children := dir.children[c := n];
      at := CutNodes(at, q)[q := n];
      forall p | p in at && p != q && p != d ensures at[p].children == kids[p] {
        assert Apart(was, p, d);
      }
      ReplaceTidy(was, kids, d, c, n, KidsOf());
      InfosReplaced(was, q, n);
      ReplacedValues(was, q, n);
    }

    /** dir.children[c] = n where n is a directory that takes over the children
        of the directory it replaces. */
    method TakeOver(dir: Node, ghost d: Path, c: string, n: Node)
      requires Valid() && d in at && at[d] == dir && n !in at.Values && n.info.kind.Dir?
      requires c in dir.children && n.children == dir.children[c].children
      modifies this`at, dir`children
      ensures Valid()
      ensures at == old(at)[d + [c] := n]
      ensures View() == old(View())[d + [c] := n.info] && at.Values <= old(at.Values) + {n}
    {
      ghost var q, was, kids := d + [c], at, KidsOf();
      ChildAt(d, c);
      SwapTidy(at, kids, d, c, n);
      dir.children := dir.children[c := n];
      at := at[q := n];
      forall p | p in at && p != q && p != d ensures at[p].children == kids[p] {
        assert Apart(was, p, d);
      }
      assert KidsOf() == kids[d := kids[d][c := n]];
      InfosReplaced(was, q, n);
      ReplacedValues(was, q, n);
    }
  
    /** dir.children[c] = newDir() where the directory at d has no directory c. */
    method MakeDir(dir: Node, ghost d: Path, c: string) returns (child: Node)
      requires Valid() && d in at && at[d] == dir && dir.info.kind.Dir? && !IsDir(View(), d + [c])
      modifies this`at, dir`children
      ensures Valid() && fresh(child) && at == old(at)[d + [c] := child]
      ensures child.info == IMPLICIT_DIR
    {
      child := new Node(IMPLICIT_DIR, map[]);
      NoNodesBelow(at, KidsOf(), d + [c], child);
      Replace(dir, d, c, child);
    }

    /** One named component of a walk, from the directory dir at d: the child
        to descend into, the symlink to follow, or the end of the walk. */
    method Enter(dir: Node, ghost d: Path, c: string, create: bool) returns (e: Entered)
      requires Valid() && d in at && at[d] == dir && dir.info.kind.Dir?
      modifies this`at, dir`children
      ensures Valid()
      ensures match e
        case Follow(t) => at == old(at) && IsLink(View(), d + [c]) && View()[d + [c]].kind.target == t
        case Blocked => at == old(at) && !create && !IsDir(View(), d + [c]) && !IsLink(View(), d + [c])
        case Into(child) =>
          && child.info.kind.Dir? && !IsLink(old(View()), d + [c])
          && if IsDir(old(View()), d + [c]) then at == old(at) && at[d + [c]] == child
             else create && fresh(child) && at == old(at)[d + [c] := child] &&
                  View() == old(View())[d + [c] := IMPLICIT_DIR]
    {
      ChildAt(d, c);
      if c !in dir.children {
        if !create { return Blocked; }
        var child := MakeDir(dir, d, c);
        return Into(child);
      } else if dir.children[c].info.kind.Symlink? {
        return Follow(dir.children[c].info.kind.target);
      } else if !dir.children[c].info.kind.Dir? {
        if !create { return Blocked; }
        var child := MakeDir(dir, d, c);
        return Into(child);
      }
      return Into(dir.children[c]);
    }
  
    /** Enter for the top of a stack of directories, which grows by the child. */
    method Descend(stack: seq<Node>, ghost cur: Path, c: string, create: bool)
      returns (e: Entered, grown: seq<Node>)
      requires Valid() && OnStack(at, stack, cur) && IsDir(View(), cur)
      modifies this, at.Values
      ensures Valid() && fresh(at.Values - old(at.Values))
      ensures !create ==> at == old(at)
      ensures match e
        case Follow(t) => at == old(at) && grown == stack && IsLink(View(), cur + [c]) && View()[cur + [c]].kind.target == t
        case Blocked => at == old(at) && !create && !IsDir(View(), cur + [c]) && !IsLink(View(), cur + [c])
        case Into(_) =>
          && OnStack(at, grown, cur + [c]) && IsDir(View(), cur + [c]) && !IsLink(old(View()), cur + [c])
          && View() == if IsDir(old(View()), cur + [c]) then old(View()) else old(View())[cur + [c] := IMPLICIT_DIR]
    {
      hide Tidy;
      ghost var q, was := cur + [c], at;
      e := Enter(stack[|stack| - 1], cur, c, create);
      grown := stack;
      if e.Into? {
        assert forall n :: n in at.Values - was.Values ==> n == e.child;
        StackKept(was, at, stack, cur, q);
        grown := stack + [e.child];
        assert grown[..|q|] == stack && Parent(q) == cur;
      }
    }

    /** One iteration of the walk: the next component c, with rest to come. */
    method Step(stack: seq<Node>, ghost cur: Path, c: string, rest: seq<string>, hops: nat, create: bool)
      returns (s: Stepped, ghost next: Path)
      requires Valid() && OnStack(at, stack, cur) && IsDir(View(), cur) && hops <= MAX_SYMLINK_HOPS
      modifies this, at.Values
      ensures Valid() && fresh(at.Values - old(at.Values))
      ensures !create ==> at == old(at)
      ensures match s
        case On(stack', rest', hops') =>
          && OnStack(at, stack', next) && IsDir(View(), next)
          && hops <= hops' <= MAX_SYMLINK_HOPS && (hops' == hops ==> rest' == rest)
          && Run(View(), next, rest', hops', create) == Run(old(View()), cur, [c] + rest, hops, create)
        case Stop(r) =>
          && !r.Stack?
          && (View(), if r.NoStack? then Missing else Loop) == Run(old(View()), cur, [c] + rest, hops, create)
    {
      hide Tidy;
      RunStep(View(), cur, [c] + rest, hops, create);
      assert ([c] + rest)[1..] == rest;
      next := cur;
      if c == "" || c == "." { return On(stack, rest, hops), cur; }
      if c == ".." {
        InfosWellFormed(at, KidsOf());
        assert Rooted(View(), cur);
        if |stack| > 1 { return On(stack[..|stack| - 1], rest, hops), Parent(cur); }
        return On(stack, rest, hops), cur;
      }
      var e, grown := Descend(stack, cur, c, create);
      if e.Blocked? { return Stop(NoStack), cur; }
      if e.Into? { return On(grown, rest, hops), cur + [c]; }
      if hops == MAX_SYMLINK_HOPS { return Stop(LoopError), cur; }
      var comps := TargetComponents(e.target) + rest;
      if Absolute(e.target) { return On([root], comps, hops + 1), []; }
      return On(stack, comps, hops + 1), cur;
    }

    /** The walk over nodes, one component at a time, with the components that are
        left, the links followed and the nodes come through as its state. What it
        does to the tree and where it ends is what Run does on the flat map. */
    method ResolveDir(comps0: seq<string>, create: bool)
      returns (r: Resolved, ghost w: Walked)
      requires Valid()
      modifies this, at.Values
      ensures Valid() && fresh(at.Values - old(at.Values))
      ensures !create ==> at == old(at)
      ensures (View(), w) == Run(old(View()), [], comps0, 0, create)
      ensures match r
        case Stack(nodes) => w.Reached? && OnStack(at, nodes, w.path) && IsDir(View(), w.path)
        case NoStack => w.Missing?
        case LoopError => w.Loop?
    {
      hide Tidy;
      var stack, hops, comps := [root], 0, comps0;
      ghost var cur: Path, goal := [], Run(View(), [], comps0, 0, create);
      while |comps| > 0
        invariant Valid() && fresh(at.Values - old(at.Values))
        invariant OnStack(at, stack, cur) && IsDir(View(), cur) && hops <= MAX_SYMLINK_HOPS
        invariant !create ==> at == old(at)
        invariant Run(View(), cur, comps, hops, create) == goal
        decreases MAX_SYMLINK_HOPS - hops, |comps|
      {
        assert comps == [comps[0]] + comps[1..];
        var s;
        s, cur := Step(stack, cur, comps[0], comps[1..], hops, create);
        match s
        case On(stack', rest, hops') => stack, comps, hops := stack', rest, hops';
        case Stop(LoopError) => return LoopError, Loop;
        case Stop(_) => return NoStack, Missing;
      }
      return Stack(stack), Reached(cur);
    }
  
    /** parent.children[name] = a new node with info; a directory over a
        directory keeps the children, anything else drops the old subtree. */
    method Hang(dir: Node, ghost d: Path, c: string, info: Info)
      requires Valid() && d in at && at[d] == dir && dir.info.kind.Dir?
      modifies this`at, dir`children
      ensures Valid() && fresh(at.Values - old(at.Values))
      ensures View() == SetAt(old(View()), d + [c], info)
    {
      hide Tidy, Cut;
      ChildAt(d, c);
      if info.kind.Dir? && c in dir.children && dir.children[c].info.kind.Dir? {
        var n := new Node(info, dir.children[c].children);
        TakeOver(dir, d, c, n);
      } else {
        var n := new Node(info, map[]);
        Replace(dir, d, c, n);
      }
    }

    /** parentOf followed by the assignment that ends put and link. */
    method PlaceUnder(p: Path, info: Info) returns (o: Outcome)
      requires Valid()
      modifies this, at.Values
      ensures Valid() && fresh(at.Values - old(at.Values))
      ensures (View(), o) == SetUnder(old(View()), p, info)
    {
      hide Tidy, CreateWalk, SetAt, WellFormed, OnStack, IsDir, Infos, KidsOf;
      InfosWellFormed(at, KidsOf());
      CreateWalkGrows(View(), [], Parent(p), 0);
      var r, w := ResolveDir(Parent(p), true);
      if r.LoopError? { return LOOP; }
      TopOfStack(r.nodes, w.path);
      Hang(r.nodes[|r.nodes| - 1], w.path, Base(p), info);
      return Done;
    }

    lemma {:induction false} TopOfStack(nodes: seq<Node>, path: Path)
      requires OnStack(at, nodes, path) && IsDir(View(), path)
      ensures |nodes| > 0 && path in at && at[path] == nodes[|nodes| - 1] && at[path].info.kind.Dir?
      ensures at[path] in at.Values
    {
    }

    method Put(p: Path, info: Info) returns (o: Outcome)
      requires Valid()
      modifies this, at.Values
      ensures Valid() && fresh(at.Values - old(at.Values))
      ensures (View(), o) == Merge.Put(old(View()), p, info)
    {
      hide Tidy;
      if p == [] { return if info.kind.Dir? then Done else ROOT_NOT_DIR; }
      o := PlaceUnder(p, info);
    }

    /** The node at p, following symlinks in parent components only. */
    method LookupNode(p: Path) returns (r: NodeFound)
      requires Valid()
      modifies this, at.Values
      ensures Valid() && at == old(at)
      ensures match Lookup(View(), p)
        case LookupLoop => r == LoopOnTheWay
        case NoEntry => r == NoNode
        case Hit(info) => r.OneNode? && r.node.info == info
    {
      hide Tidy;
      if p == [] { return OneNode(root); }
      var w, g := ResolveDir(Parent(p), false);
      if w.LoopError? { return LoopOnTheWay; }
      if w.NoStack? { return NoNode; }
      var dir := w.nodes[|w.nodes| - 1];
      ChildAt(g.path, Base(p));
      if Base(p) in dir.children { return OneNode(dir.children[Base(p)]); }
      return NoNode;
    }

    /** A hard link copies the target's payload under its own metadata. */
    method Link(p: Path, target: Path, meta: Meta) returns (o: Outcome)
      requires Valid()
      modifies this, at.Values
      ensures Valid() && fresh(at.Values - old(at.Values))
      ensures (View(), o) == Merge.Link(old(View()), p, target, meta)
    {
      hide Tidy;
      var t := LookupNode(target);
      match t {
        case LoopOnTheWay => return LOOP;
        case NoNode => return NO_TARGET;
        case OneNode(n) =>
          if n.info.kind.Dir? { return LINK_TO_DIR; }
          o := PlaceUnder(p, Info(n.info.kind, meta));
      }
    }

    /** delete(dir.children, c) */
    method Detach(dir: Node, ghost d: Path, c: string)
      requires Valid() && d in at && at[d] == dir
      modifies this`at, dir`children
      ensures Valid() && at == old(CutNodes(at, d + [c]))
    {
      ghost var was, kids := at, KidsOf();
      DetachTidy(at, kids, d, c);
      dir.children := dir.children - {c};
      at := CutNodes(at, d + [c]);
      forall p | p in at && p != d ensures at[p].children == kids[p] { assert Apart(was, p, d); }
      assert KidsOf() == CutNodes(kids, d + [c])[d := kids[d] - {c}];
    }

    method Whiteout(p: Path) returns (o: Outcome)
      requires Valid()
      modifies this, at.Values
      ensures Valid() && fresh(at.Values - old(at.Values))
      ensures (View(), o) == Erase(old(View()), p)
    {
      hide Tidy;
      if p == [] { return Done; }
      var r, w := ResolveDir(Parent(p), false);
      if r.LoopError? { return LOOP; }
      if r.NoStack? { return Done; }
      ghost var was := at;
      Detach(r.nodes[|r.nodes| - 1], w.path, Base(p));
      InfosReplaced(was, w.path + [Base(p)], root);
      return Done;
    }

    /** dir.children = map[string]*node{} */
    method Empty(dir: Node, ghost d: Path)
      requires Valid() && d in at && at[d] == dir
      modifies this`at, dir`children
      ensures Valid() && at == old(CutNodesBelow(at, d))
    {
      ghost var was, kids := at, KidsOf();
      EmptyTidy(at, kids, d);
      dir.children := map[];
      at := CutNodesBelow(at, d);
      forall q | q in at && q != d ensures at[q].children == kids[q] { assert Apart(was, q, d); }
      assert KidsOf() == CutNodesBelow(kids, d)[d := map[]];
    }

    method OpaqueDir(p: Path) returns (o: Outcome)
      requires Valid()
      modifies this, at.Values
      ensures Valid() && fresh(at.Values - old(at.Values))
      ensures (View(), o) == Clear(old(View()), p)
    {
      hide Tidy;
      var r, w := ResolveDir(p, false);
      if r.LoopError? { return LOOP; }
      if r.NoStack? { return Done; }
      ghost var was := at;
      Empty(r.nodes[|r.nodes| - 1], w.path);
      InfosReplaced(was, w.path, root);
      return Done;
    }
  }
}
