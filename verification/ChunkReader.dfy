/** The streaming reader of a chunked file (store/read.go): Read and Skip over a
    tree of index nodes and blobs, against the plain content. */
module ChunkReader {
  import opened Wrappers

  datatype Kind = Blob | FileNode | Other

  /** A content key: it carries the object's type and the content length. */
  datatype Key = Key(kind: Kind, length: nat, hash: nat)

  datatype Object = Bytes(data: seq<Byte>) | Children(keys: seq<Key>)

  type Store = map<Key, Object>
  type Rank = map<Key, nat>

  function Lengths(ks: seq<Key>): nat {
    if ks == [] then 0 else ks[0].length + Lengths(ks[1..])
  }

  /** Content addressing admits no cycle: a stored child ranks below its node. */
  ghost predicate Acyclic(st: Store, rank: Rank) {
    && st.Keys <= rank.Keys
    && forall k, c :: k in st && st[k].Children? && c in st[k].keys && c in st ==> rank[c] < rank[k]
  }

  /** The object under k is what its key says: a blob of that length, or a node
      whose children are stored and add up to it. */
  ghost predicate GoodObject(st: Store, k: Key) {
    && k in st
    && match k.kind
       case Blob => st[k].Bytes? && |st[k].data| == k.length
       case FileNode =>
         st[k].Children? && Lengths(st[k].keys) == k.length && forall c :: c in st[k].keys ==> c in st
       case Other => false
  }

  /** Every object is well formed and has its children: chunk trees, whole. */
  ghost predicate Good(st: Store) {
    forall k {:trigger GoodObject(st, k)} :: k in st ==> GoodObject(st, k)
  }

  /** A part of a store. */
  ghost predicate Within(tree: Store, st: Store) {
    forall k :: k in tree ==> k in st && st[k] == tree[k]
  }

  // ---- The plain content ----------------------------------------------------

  ghost function Content(st: Store, rank: Rank, k: Key): seq<Byte>
    requires Acyclic(st, rank) && Good(st) && k in st
    decreases rank[k], 1, 0
  {
    assert GoodObject(st, k);
    if k.kind.Blob? then st[k].data else ContentOf(st, rank, st[k].keys, rank[k])
  }

  ghost function ContentOf(st: Store, rank: Rank, ks: seq<Key>, bound: nat): seq<Byte>
    requires Acyclic(st, rank) && Good(st) && forall c :: c in ks ==> c in st && rank[c] < bound
    decreases bound, 0, |ks|
  {
    if ks == [] then [] else Content(st, rank, ks[0]) + ContentOf(st, rank, ks[1..], bound)
  }

  lemma {:induction false} ContentLength(st: Store, rank: Rank, k: Key)
    requires Acyclic(st, rank) && Good(st) && k in st
    ensures |Content(st, rank, k)| == k.length
    decreases rank[k], 1, 0
  {
    assert GoodObject(st, k);
    if k.kind.FileNode? { ContentOfLength(st, rank, st[k].keys, rank[k]); }
  }

  lemma {:induction false} ContentOfLength(st: Store, rank: Rank, ks: seq<Key>, bound: nat)
    requires Acyclic(st, rank) && Good(st) && forall c :: c in ks ==> c in st && rank[c] < bound
    ensures |ContentOf(st, rank, ks, bound)| == Lengths(ks)
    decreases bound, 0, |ks|
  {
    if ks != [] {
      ContentLength(st, rank, ks[0]);
      ContentOfLength(st, rank, ks[1..], bound);
    }
  }

  // ---- What is left to read -------------------------------------------------

  ghost predicate AllIn(st: Store, ks: seq<Key>) {
    forall c :: c in ks ==> c in st
  }

  /** The content of a level of pending keys. */
  ghost function LevelContent(st: Store, rank: Rank, ks: seq<Key>): seq<Byte>
    requires Acyclic(st, rank) && Good(st) && AllIn(st, ks)
  {
    if ks == [] then [] else Content(st, rank, ks[0]) + LevelContent(st, rank, ks[1..])
  }

  lemma {:induction false} NodeContent(st: Store, rank: Rank, ks: seq<Key>, bound: nat)
    requires Acyclic(st, rank) && Good(st) && forall c :: c in ks ==> c in st && rank[c] < bound
    ensures ContentOf(st, rank, ks, bound) == LevelContent(st, rank, ks)
  {
    if ks != [] { NodeContent(st, rank, ks[1..], bound); }
  }

  lemma {:induction false} LevelLength(st: Store, rank: Rank, ks: seq<Key>)
    requires Acyclic(st, rank) && Good(st) && AllIn(st, ks)
    ensures |LevelContent(st, rank, ks)| == Lengths(ks)
  {
    if ks != [] {
      ContentLength(st, rank, ks[0]);
      LevelLength(st, rank, ks[1..]);
    }
  }

  ghost predicate Stored(st: Store, stack: seq<seq<Key>>) {
    forall i :: 0 <= i < |stack| ==> AllIn(st, stack[i])
  }

  /** The content of the pending keys, deepest level first. */
  ghost function Pending(st: Store, rank: Rank, stack: seq<seq<Key>>): seq<Byte>
    requires Acyclic(st, rank) && Good(st) && Stored(st, stack)
  {
    if stack == [] then []
    else LevelContent(st, rank, stack[|stack| - 1]) + Pending(st, rank, stack[..|stack| - 1])
  }

  // ---- Work left: every fetch of a node replaces it by lighter keys ----------

  ghost function Weight(st: Store, rank: Rank, k: Key): nat
    requires Acyclic(st, rank)
    decreases if k in st then rank[k] + 1 else 0, 1, 0
  {
    if k in st && st[k].Children? then 2 + WeightOf(st, rank, st[k].keys, rank[k]) else 1
  }

  ghost function WeightOf(st: Store, rank: Rank, ks: seq<Key>, bound: nat): nat
    requires Acyclic(st, rank) && forall c :: c in ks && c in st ==> rank[c] < bound
    decreases bound + 1, 0, |ks|
  {
    if ks == [] then 0 else Weight(st, rank, ks[0]) + WeightOf(st, rank, ks[1..], bound)
  }

  ghost function LevelWeight(st: Store, rank: Rank, ks: seq<Key>): nat
    requires Acyclic(st, rank)
  {
    if ks == [] then 0 else Weight(st, rank, ks[0]) + LevelWeight(st, rank, ks[1..])
  }

  lemma {:induction false} NodeWeight(st: Store, rank: Rank, ks: seq<Key>, bound: nat)
    requires Acyclic(st, rank) && forall c :: c in ks && c in st ==> rank[c] < bound
    ensures WeightOf(st, rank, ks, bound) == LevelWeight(st, rank, ks)
  {
    if ks != [] { NodeWeight(st, rank, ks[1..], bound); }
  }

  ghost function Work(st: Store, rank: Rank, stack: seq<seq<Key>>): nat
    requires Acyclic(st, rank)
  {
    if stack == [] then 0
    else 1 + LevelWeight(st, rank, stack[|stack| - 1]) + Work(st, rank, stack[..|stack| - 1])
  }

  // ---- The reader -------------------------------------------------------------

  datatype Error = NoError | Eof | Broken

  datatype Popped = Popped(key: Key) | Exhausted

  /** One object fetched, and the content offset its key starts at. */
  datatype Fetch = Fetch(key: Key, start: nat)

  datatype SkipPop = NothingLeft | PassedOver(length: nat) | Inside(key: Key)

  class Reader {
    const st: Store
    ghost const tree: Store    // the part of the store the file's content lives in
    ghost const rank: Rank
    var stack: seq<seq<Key>>   // keys still to come; the last list comes first
    var cur: seq<Byte>         // what is left of the blob in hand
    var err: Error
    ghost var at: nat          // content offset of the next byte
    ghost var fetched: seq<Fetch>

    ghost predicate Valid()
      reads this
    {
      Acyclic(st, rank) && Acyclic(tree, rank) && Within(tree, st)
    }

    /** The file's own objects are well formed, whatever else the store holds, and
        nothing has failed. */
    ghost predicate Sound()
      reads this
    {
      && Valid() && Good(tree) && Stored(tree, stack) && err != Broken
      && (err == Eof ==> cur == [] && Pending(tree, rank, stack) == [])
    }

    /** The content from the reader's position on. */
    ghost function Remaining(): seq<Byte>
      reads this
      requires Sound()
    {
      cur + Pending(tree, rank, stack)
    }

    constructor (st: Store, ghost tree: Store, ghost rank: Rank, k: Key)
      requires Acyclic(st, rank) && Within(tree, st)
      ensures Valid() && at == 0 && fetched == [] && this.st == st && this.tree == tree && this.rank == rank
      ensures Good(tree) && k in tree ==> Sound() && Remaining() == Content(tree, rank, k)
    {
      this.st, this.tree, this.rank := st, tree, rank;
      stack, cur, err, at, fetched := [[k]], [], NoError, 0, [];
      new;
      if Good(tree) && k in tree {
        assert Pending(tree, rank, []) == [] && this.stack[..0] == [];
        assert LevelContent(tree, rank, [k]) == Content(tree, rank, k) + LevelContent(tree, rank, [k][1..]);
      }
    }

    /** Takes the key whose content comes first, dropping levels that are used up. */
    method Next() returns (r: Popped)
      requires Valid()
      modifies this`stack
      ensures Valid()
      ensures r.Exhausted? ==> stack == []
      ensures r.Popped? ==> Work(st, rank, stack) + Weight(st, rank, r.key) <= old(Work(st, rank, stack))
      ensures old(Sound()) ==> Stored(tree, stack)
      ensures old(Sound()) && r.Exhausted? ==> old(Pending(tree, rank, stack)) == []
      ensures old(Sound()) && r.Popped? ==>
        r.key in tree && old(Pending(tree, rank, stack)) == Content(tree, rank, r.key) + Pending(tree, rank, stack)
      ensures old(stack != [] && stack[|stack| - 1] != []) ==>
        r == Popped(old(stack[|stack| - 1][0])) && stack == old(stack[..|stack| - 1] + [stack[|stack| - 1][1..]])
    {
      hide Content, Weight, Good, Acyclic, LevelContent, LevelWeight, Pending, Work, Stored;
      EmptyLevels(tree, rank);
      while |stack| > 0
        invariant Work(st, rank, stack) <= old(Work(st, rank, stack))
        invariant old(Sound()) ==> Stored(tree, stack) && Pending(tree, rank, stack) == old(Pending(tree, rank, stack))
        invariant old(stack != [] && stack[|stack| - 1] != []) ==> stack == old(stack)
        decreases |stack|
      {
        var top := stack[|stack| - 1];
        PopWork(st, rank, stack);
        PopLevel(tree, rank, stack);
        if |top| == 0 {
          stack := stack[..|stack| - 1];
          continue;
        }
        stack := stack[..|stack| - 1] + [top[1..]];
        return Popped(top[0]);
      }
      return Exhausted;
    }
  
    /** Opens an index node: what it lists comes before all else that is left. */
    method Descend(k: Key) returns (e: Error)
      requires Valid()
      modifies this`stack, this`fetched
      ensures e != Eof
      ensures e == NoError ==> k in st && st[k].Children? && stack == old(stack) + [st[k].keys]
      ensures e == NoError ==> Work(st, rank, stack) < old(Work(st, rank, stack)) + Weight(st, rank, k)
      ensures e == Broken ==> stack == old(stack)
      ensures Good(tree) && k in tree && k.kind.FileNode? ==> e == NoError
      ensures Good(tree) && k in tree && old(Stored(tree, stack)) && e == NoError ==>
        Stored(tree, stack) && Pending(tree, rank, stack) == Content(tree, rank, k) + old(Pending(tree, rank, stack))
      ensures fetched == old(fetched) + [Fetch(k, at)]
    {
      fetched := fetched + [Fetch(k, at)];
      if Good(tree) && k in tree { assert GoodObject(tree, k) && st[k] == tree[k]; }
      if k !in st || !st[k].Children? { return Broken; }
      stack := stack + [st[k].keys];
      assert stack[..|stack| - 1] == old(stack);
      NodeWeight(st, rank, st[k].keys, rank[k]);
      if Good(tree) && k in tree && old(Stored(tree, stack)) { NodeContent(tree, rank, st[k].keys, rank[k]); }
      return NoError;
    }

    /** Fetches the Blob k; its length must be what the key says. */
    method FetchBlob(k: Key) returns (data: seq<Byte>, e: Error)
      requires Valid()
      modifies this`fetched
      ensures e != Eof && (e == NoError ==> k in st && st[k].Bytes? && data == st[k].data && |data| == k.length)
      ensures Good(tree) && k in tree && k.kind.Blob? ==> e == NoError && data == Content(tree, rank, k)
      ensures fetched == old(fetched) + [Fetch(k, at)]
    {
      fetched := fetched + [Fetch(k, at)];
      if Good(tree) && k in tree { assert GoodObject(tree, k) && st[k] == tree[k]; }
      if k !in st || !st[k].Bytes? || |st[k].data| != k.length { return [], Broken; }
      return st[k].data, NoError;
    }

    /** Gets bytes into hand, through as many index nodes as it takes. */
    method Fill() returns (e: Error)
      requires Valid() && err == NoError
      modifies this`stack, this`cur, this`fetched
      ensures old(Sound()) ==> Sound() && Remaining() == old(Remaining()) && e != Broken
      ensures e == NoError ==> cur != []
      ensures old(Sound()) && e == Eof ==> Remaining() == []
    {
      hide Content, Pending, LevelContent, Weight, Work, Good;
      while |cur| == 0
        invariant err == NoError
        invariant old(Sound()) ==> Sound() && Remaining() == old(Remaining())
        decreases if cur == [] then 1 else 0, Work(st, rank, stack)
      {
        ghost var was := old(Sound());
        var r := Next();
        if r.Exhausted? {
          if was { EmptyStack(tree, rank); }
          return Eof;
        }
        assert was ==> GoodAt(tree, r.key) by { if was { KeyIsGood(tree, r.key); } }
        match r.key.kind {
          case Blob =>
            var data, e' := FetchBlob(r.key);
            if e' != NoError { return Broken; }
            cur := data;
            PopLight(st, rank, r.key);
          case FileNode =>
            var e' := Descend(r.key);
            if e' != NoError { return Broken; }
          case Other => return Broken;
        }
      }
      return NoError;
    }
  
    /** io.Reader: never more than the rest of the current chunk. */
    method Read(n: nat) returns (out: seq<Byte>, e: Error)
      requires Valid()
      modifies this
      ensures Valid() && |out| <= n
      ensures old(err) != NoError ==> out == [] && e == old(err) && err == old(err)
      ensures old(Sound()) ==> Sound() && out + Remaining() == old(Remaining()) && e != Broken
      ensures old(Sound()) && old(Remaining()) != [] && n > 0 ==> out != []
      ensures old(Sound()) && e == Eof ==> old(Remaining()) == []
    {
      hide Content, Pending, LevelContent, Good;
      if err != NoError { return [], err; }
      if n == 0 { return [], NoError; }
      e := Fill();
      if e != NoError {
        err := e;
        return [], e;
      }
      var k := if n < |cur| then n else |cur|;
      out, cur, at := cur[..k], cur[k..], at + k;
    }

    /** Advances by n bytes without returning them. Whole chunks and subtrees
        before the new position are passed over by their length alone. */
    method Skip(n0: nat) returns (e: Error)
      requires Valid()
      modifies this
      ensures Valid() && e != Eof && old(fetched) <= fetched
      ensures old(Sound()) ==> e == NoError && Skipped(|old(fetched)|, old(at) + n0, Drop(old(Remaining()), n0))
    {
      hide Content, Pending, LevelContent, Good, Drop, OnThePath, Acyclic;
      ghost var was := Sound();
      NoFetchYet(st, fetched, at + n0);
      if was { DropSplit(cur, Pending(tree, rank, stack), n0); }
      if err != NoError { return if err == Eof then NoError else Broken; }
      if |cur| >= n0 {
        cur, at := cur[n0..], at + n0;
        return NoError;
      }
      var n := n0 - |cur|;
      at := at + |cur|;
      cur := [];
      if was { assert Remaining() == Pending(tree, rank, stack); }
      e := SkipChunks(n);
    }

    /** Skip is on its way: n bytes to go, rest what is to remain. */
    ghost predicate Skipping(log: nat, target: nat, n: nat, rest: seq<Byte>)
      reads this
    {
      && Sound() && cur == [] && at + n == target && Drop(Pending(tree, rank, stack), n) == rest
      && OnThePath(st, fetched, log, target)
      && (forall i :: log <= i < |fetched| ==> fetched[i].key.kind.FileNode?)
      && (|fetched| > log ==> Entered(st, stack, fetched[|fetched| - 1].key, n))
    }

    /** Skip has arrived. */
    ghost predicate Skipped(log: nat, target: nat, rest: seq<Byte>)
      reads this
    {
      && Sound() && Remaining() == rest && OnThePath(st, fetched, log, target)
      && (forall i :: log <= i < |fetched| - 1 ==> fetched[i].key.kind.FileNode?)
    }

    /** One pending key: passed over by its length, or entered. */
    method SkipOne(n: nat, ghost log: nat, ghost target: nat, ghost rest: seq<Byte>)
      returns (left: nat, done: bool, e: Error)
      requires Valid() && err == NoError && cur == [] && n > 0
      modifies this
      ensures Valid() && old(fetched) <= fetched && e != Eof && (e == Broken ==> done)
      ensures !done ==> err == NoError && cur == [] && left <= n && Work(st, rank, stack) < old(Work(st, rank, stack))
      ensures old(Skipping(log, target, n, rest)) ==> e == NoError
      ensures old(Skipping(log, target, n, rest)) && !done ==> Skipping(log, target, left, rest)
      ensures old(Skipping(log, target, n, rest)) && done ==> Skipped(log, target, rest)
    {
      hide *;
      left, done := n, false;
      var r := PopForSkip(n, log, target, rest);
      match r {
        case NothingLeft => return 0, true, NoError;
        case PassedOver(length) => return n - length, false, NoError;
        case Inside(k) => done, e := SkipInto(k, n, log, target, rest);
      }
    }

    /** Pops a key and passes over it when it ends at or before the target. */
    method PopForSkip(n: nat, ghost log: nat, ghost target: nat, ghost rest: seq<Byte>) returns (p: SkipPop)
      requires Valid() && err == NoError && cur == [] && n > 0
      modifies this`stack, this`at
      ensures Valid()
      ensures p.PassedOver? ==> p.length <= n && Work(st, rank, stack) < old(Work(st, rank, stack))
      ensures p.Inside? ==>
        n < p.key.length && Work(st, rank, stack) + Weight(st, rank, p.key) <= old(Work(st, rank, stack))
      ensures old(Skipping(log, target, n, rest)) ==>
        match p
        case NothingLeft => Skipped(log, target, rest)
        case PassedOver(length) => Skipping(log, target, n - length, rest)
        case Inside(k) => AtKey(log, target, n, rest, k)
    {
      hide Content, Pending, LevelContent, Good, Weight, Work, Acyclic, Entered, Lengths, OnThePath, Drop, ChildOf,
        GoodAt;
      ghost var was, before := Skipping(log, target, n, rest), stack;
      var r := Next();
      if r.Exhausted? {
        if was { EmptyStack(tree, rank); }
        return NothingLeft;
      }
      var k := r.key;
      if was { PoppedIsGood(tree, rank, k, stack, n); }
      if was && |fetched| > log { EnteredNext(st, before, fetched[|fetched| - 1].key, n); }
      PopLight(st, rank, k);
      if k.length > n { return Inside(k); }
      at := at + k.length;
      return PassedOver(k.length);
    }

    /** k has been popped and the target lies in it. */
    ghost predicate AtKey(log: nat, target: nat, n: nat, rest: seq<Byte>, k: Key)
      reads this
    {
      && Sound() && cur == [] && at + n == target && 0 < n < k.length && GoodAt(tree, k)
      && |Content(tree, rank, k)| == k.length && Content(tree, rank, k)[n..] + Pending(tree, rank, stack) == rest
      && OnThePath(st, fetched, log, target)
      && (forall i :: log <= i < |fetched| ==> fetched[i].key.kind.FileNode?)
      && (|fetched| > log ==> ChildOf(st, fetched[|fetched| - 1].key, k))
    }

    /** The popped key holds the new position: its blob is fetched, or its node
        is entered. */
    method SkipInto(k: Key, n: nat, ghost log: nat, ghost target: nat, ghost rest: seq<Byte>)
      returns (done: bool, e: Error)
      requires Valid() && err == NoError && cur == [] && 0 < n < k.length
      modifies this
      ensures Valid() && old(fetched) <= fetched && e != Eof && (e == Broken ==> done)
      ensures !done ==>
        err == NoError && cur == [] && Work(st, rank, stack) < old(Work(st, rank, stack)) + Weight(st, rank, k)
      ensures old(AtKey(log, target, n, rest, k)) ==> e == NoError
      ensures old(AtKey(log, target, n, rest, k)) && !done ==> Skipping(log, target, n, rest)
      ensures old(AtKey(log, target, n, rest, k)) && done ==> Skipped(log, target, rest)
    {
      hide Content, Pending, LevelContent, Good, Weight, Work, Acyclic, GoodObject, OnThePath;
      ghost var was := AtKey(log, target, n, rest, k);
      if was {
        NodeLengths(tree, k);
        assert st[k] == tree[k];
        PathGrows(st, fetched, log, target, Fetch(k, at));
      }
      match k.kind {
        case Blob =>
          var data, e' := FetchBlob(k);
          if e' != NoError { err := Broken; return true, Broken; }
          cur, at := data[n..], at + n;
          return true, NoError;
        case FileNode =>
          var e' := Descend(k);
          if e' != NoError { err := Broken; return true, Broken; }
          return false, NoError;
        case Other =>
          err := Broken;
          return true, Broken;
      }
    }

    /** The loop of Skip, once the current chunk is used up. */
    method SkipChunks(n0: nat) returns (e: Error)
      requires Valid() && err == NoError && cur == []
      modifies this
      ensures Valid() && e != Eof && old(fetched) <= fetched
      ensures old(Sound()) ==> e == NoError && Skipped(|old(fetched)|, old(at) + n0, Drop(old(Remaining()), n0))
    {
      hide Acyclic, Sound, Skipping, Skipped, Work, Drop, Remaining;
      var n, done := n0, false;
      ghost var log, target, rest := |fetched|, at + n0, if Sound() then Drop(Remaining(), n0) else [];
      ghost var sound := Sound();
      if sound { StartSkipping(n0); }
      while n > 0 && !done
        invariant Valid() && old(fetched) <= fetched && (!done ==> err == NoError && cur == [])
        invariant sound && !done ==> Skipping(log, target, n, rest)
        invariant sound && done ==> Skipped(log, target, rest)
        decreases if done then 0 else 1, Work(st, rank, stack)
      {
        n, done, e := SkipOne(n, log, target, rest);
        if e == Broken { return Broken; }
      }
      if sound && !done { StopSkipping(log, target, rest); }
      return NoError;
    }

    lemma {:induction false} StartSkipping(n: nat)
      requires Sound() && cur == []
      ensures Skipping(|fetched|, at + n, n, Drop(Remaining(), n))
    {
    }

    lemma {:induction false} StopSkipping(log: nat, target: nat, rest: seq<Byte>)
      requires Skipping(log, target, 0, rest)
      ensures Skipped(log, target, rest)
    {
      assert Remaining()[0..] == Remaining();
    }
  }

  /** Reads in pieces of at most `buffer` bytes until the end. */
  method ReadToEnd(r: Reader, buffer: nat) returns (out: seq<Byte>)
    requires r.Sound() && buffer > 0
    modifies r
    ensures r.Sound() && r.Remaining() == [] && out == old(r.Remaining())
  {
    hide Reader.Sound, Reader.Remaining;
    out := [];
    while true
      invariant r.Sound() && out + r.Remaining() == old(r.Remaining())
      decreases |r.Remaining()|
    {
      SoundIsValid(r);
      var b, e := r.Read(buffer);
      out := out + b;
      if b == [] { return; }
    }
  }

  lemma {:induction false} SoundIsValid(r: Reader)
    requires r.Sound()
    ensures r.Valid()
  {
  }

  /** From wherever earlier reads and skips have left the reader, skipping n
      bytes and reading on yields the content without its next n bytes. */
  method SkipAndRead(r: Reader, n: nat, buffer: nat) returns (out: seq<Byte>)
    requires r.Sound() && buffer > 0
    modifies r
    ensures r.Sound() && out == Drop(old(r.Remaining()), n)
  {
    var e := r.Skip(n);
    out := ReadToEnd(r, buffer);
  }

  ghost function Drop(s: seq<Byte>, n: nat): seq<Byte> {
    if n <= |s| then s[n..] else []
  }

  /** target lies strictly inside the fetched object's content. */
  predicate Spans(f: Fetch, target: nat) {
    f.start < target < f.start + f.key.length
  }

  predicate ChildOf(st: Store, k: Key, c: Key) {
    k in st && st[k].Children? && c in st[k].keys
  }

  /** Every fetch after the first n has the target strictly inside, and each is
      of a child of the one before. */
  ghost predicate OnThePath(st: Store, log: seq<Fetch>, n: nat, target: nat) {
    && n <= |log|
    && (forall i :: n <= i < |log| ==> Spans(log[i], target))
    && (forall i :: n <= i < |log| - 1 ==> ChildOf(st, log[i].key, log[i + 1].key))
  }

  lemma {:induction false} NoFetchYet(st: Store, log: seq<Fetch>, target: nat)
    ensures OnThePath(st, log, |log|, target)
  {
  }

  lemma {:induction false} DropSplit(a: seq<Byte>, b: seq<Byte>, n: nat)
    ensures n <= |a| ==> Drop(a + b, n) == a[n..] + b
    ensures n >= |a| ==> Drop(a + b, n) == Drop(b, n - |a|)
    ensures a == b == [] ==> Drop(a + b, n) == []
  {
  }

  lemma {:induction false} PathGrows(st: Store, log: seq<Fetch>, n: nat, target: nat, f: Fetch)
    requires OnThePath(st, log, n, target) && Spans(f, target)
    requires |log| > n ==> ChildOf(st, log[|log| - 1].key, f.key)
    ensures OnThePath(st, log + [f], n, target)
  {
  }

  /** The deepest level holds children of node k that reach past n bytes. */
  ghost predicate Entered(st: Store, stack: seq<seq<Key>>, k: Key, n: nat) {
    && stack != [] && Lengths(stack[|stack| - 1]) > n
    && forall c :: c in stack[|stack| - 1] ==> ChildOf(st, k, c)
  }

  lemma {:induction false} EnteredNext(st: Store, stack: seq<seq<Key>>, k: Key, n: nat)
    requires Entered(st, stack, k, n)
    ensures stack != []
    ensures var top := stack[|stack| - 1];
      && top != [] && ChildOf(st, k, top[0])
      && (top[0].length <= n ==> Entered(st, stack[..|stack| - 1] + [top[1..]], k, n - top[0].length))
  {
  }

  lemma {:induction false} NodeLengths(st: Store, k: Key)
    requires Good(st) && k in st
    ensures k.kind.FileNode? ==> st[k].Children? && Lengths(st[k].keys) == k.length
  {
    assert GoodObject(st, k);
  }

  lemma {:induction false} PoppedIsGood(st: Store, rank: Rank, k: Key, stack: seq<seq<Key>>, n: nat)
    requires Acyclic(st, rank) && Good(st) && k in st && Stored(st, stack)
    ensures GoodAt(st, k) && |Content(st, rank, k)| == k.length
    ensures k.kind.FileNode? ==> st[k].Children? && Lengths(st[k].keys) == k.length
    ensures k.length <= n ==>
      Drop(Pending(st, rank, stack), n - k.length) == Drop(Content(st, rank, k) + Pending(st, rank, stack), n)
    ensures k.length > n ==>
      Content(st, rank, k)[n..] + Pending(st, rank, stack) == Drop(Content(st, rank, k) + Pending(st, rank, stack), n)
  {
    assert GoodObject(st, k);
    hide Content, Pending, Drop, Good, Acyclic, Stored, GoodObject;
    ContentLength(st, rank, k);
    DropSplit(Content(st, rank, k), Pending(st, rank, stack), n);
  }

  ghost predicate GoodAt(st: Store, k: Key) {
    k in st && (k.kind.Blob? || k.kind.FileNode?)
  }

  lemma {:induction false} KeyIsGood(st: Store, k: Key)
    requires Good(st) && k in st
    ensures GoodAt(st, k)
  {
    assert GoodObject(st, k);
  }

  lemma {:induction false} EmptyStack(st: Store, rank: Rank)
    requires Acyclic(st, rank) && Good(st)
    ensures Pending(st, rank, []) == [] && forall n :: Drop([], n) == []
  {
  }

  lemma {:induction false} EmptyLevels(st: Store, rank: Rank)
    requires Acyclic(st, rank)
    ensures Stored(st, []) && (Good(st) ==> Pending(st, rank, []) == [])
  {
  }

  /** The deepest level used up, or its first key taken: the work left. */
  lemma {:induction false} PopWork(st: Store, rank: Rank, stack: seq<seq<Key>>)
    requires Acyclic(st, rank) && stack != []
    ensures
      var below, top := stack[..|stack| - 1], stack[|stack| - 1];
      if top == [] then Work(st, rank, below) <= Work(st, rank, stack)
      else Work(st, rank, below + [top[1..]]) + Weight(st, rank, top[0]) <= Work(st, rank, stack)
  {
    hide Weight, Acyclic;
    var below, top := stack[..|stack| - 1], stack[|stack| - 1];
    if top != [] { assert (below + [top[1..]])[..|below|] == below; }
  }

  /** And the content left. */
  lemma {:induction false} PopLevel(st: Store, rank: Rank, stack: seq<seq<Key>>)
    requires Acyclic(st, rank) && stack != []
    ensures Good(st) && Stored(st, stack) ==>
      var below, top := stack[..|stack| - 1], stack[|stack| - 1];
      if top == [] then Stored(st, below) && Pending(st, rank, below) == Pending(st, rank, stack)
      else
        && top[0] in st && Stored(st, below + [top[1..]])
        && Pending(st, rank, stack) == Content(st, rank, top[0]) + Pending(st, rank, below + [top[1..]])
  {
    hide Content, Good, Acyclic;
    var below, top := stack[..|stack| - 1], stack[|stack| - 1];
    if top != [] {
      var now := below + [top[1..]];
      assert now[..|now| - 1] == below;
      if Good(st) && Stored(st, stack) {
        assert forall i :: 0 <= i < |below| ==> now[i] == stack[i];
        assert Stored(st, now);
      }
    }
  }

  lemma {:induction false} PopLight(st: Store, rank: Rank, k: Key)
    requires Acyclic(st, rank)
    ensures Weight(st, rank, k) >= 1
  {
  }
}
