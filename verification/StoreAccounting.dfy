/** The accounting of a live Writer (store/write.go) and of a staged pack
    committed through one (store/pack.go). Objects are content addressed, so a
    key fixes an object's length and its size on disk. */
module StoreAccounting {
  import opened Wrappers
  import opened Sums

  datatype Stats = Stats(logicalBytes: nat, newLogicalBytes: nat, dedupedBytes: int,
                         diskBytes: nat, objectsNew: nat, objectsDeduped: int)

  /** The Stats of offering every key of `offered` when those of `missing`
      had to be stored. */
  ghost function StatsOf(offered: seq<Key>, missing: set<Key>): Stats {
    var logical, stored := OverSeq(offered, Ulen), OverSet(missing, Ulen);
    Stats(logical, stored, logical - stored, OverSet(missing, Disk), |missing|, |offered| - |missing|)
  }

  /** What the accounting must come to when the objects of `offered` go to a
      store that holds `held`: every key it lacks is stored once. */
  ghost function LiveStats(held: set<Key>, offered: seq<Key>): Stats {
    StatsOf(offered, (set k | k in offered) - held)
  }

  /** The store is what it held and what was written, which are apart. */
  ghost predicate Apart(store: set<Key>, held: set<Key>, written: set<Key>) {
    store == held + written && held !! written
  }

  /** What the store writer stored, and what it has still to look at, are the
      forwarded objects the store did not hold. */
  ghost predicate Forwarded(store: set<Key>, pending: seq<Key>, held: set<Key>, objects: set<Key>) {
    && (forall k :: k in store && k !in held ==> k in objects)
    && (forall k :: k in objects && k !in held ==> k in store || k in pending)
    && (forall k :: k in pending ==> k in objects)
  }

  /** seen holds every key offered and says which the store did not hold. */
  ghost predicate Noted(seen: map<Key, bool>, held: set<Key>, offered: seq<Key>, objects: set<Key>) {
    && (forall k :: k in offered <==> k in seen)
    && (forall k :: k in objects ==> k in offered)
    && (forall k :: k in seen ==> (seen[k] <==> k !in held))
    && (forall k :: k in seen && k !in held ==> k in objects)
  }

  lemma {:induction false} ForwardedSteps(store: set<Key>, pending: seq<Key>, held: set<Key>, objects: set<Key>, k: Key)
    requires Forwarded(store, pending, held, objects)
    ensures Forwarded(store, pending + [k], held, objects + {k})
    ensures forall i :: 0 <= i < |pending| && pending[i] == k ==>
      Forwarded(store + {k}, pending[..i] + pending[i + 1..], held, objects)
  {
    forall i | 0 <= i < |pending| && pending[i] == k
      ensures Forwarded(store + {k}, pending[..i] + pending[i + 1..], held, objects)
    {
      var rest := pending[..i] + pending[i + 1..];
      forall x | x in pending && x != k ensures x in rest {
        var j :| 0 <= j < |pending| && pending[j] == x;
        assert x == if j < i then rest[j] else rest[j - 1];
      }
      forall x | x in rest ensures x in pending {}
    }
  }

  lemma {:induction false} NotedSteps(store: set<Key>, pending: seq<Key>, seen: map<Key, bool>, held: set<Key>,
                   offered: seq<Key>, objects: set<Key>, k: Key)
    requires held <= store && Forwarded(store, pending, held, objects) && Noted(seen, held, offered, objects)
    ensures Noted(if k in seen then seen else seen[k := k !in store], held, offered + [k], objects + {k})
    ensures k in store ==> Noted(if k in seen then seen else seen[k := false], held, offered + [k], objects)
  {
  }

  /** The accounting iterator and the parallel store writer behind it. Objects
      are forwarded to the store writer, which stores them at its own pace. */
  class Writer {
    var store: set<Key>          // what the store holds right now
    var pending: seq<Key>   // forwarded, not yet looked at by the store writer
    var logical: nat
    var seen: map<Key, bool>     // per key, whether it was missing when first offered
    var skippedDeduped: nat
    var stored: nat
    var deduped: nat
    var bytesStored: nat
    ghost var held: set<Key>        // what the store held at the start
    ghost var offered: seq<Key> // every key accounted so far
    ghost var objects: set<Key>     // those that came with an object
    ghost var written: set<Key>     // what the store writer has stored so far

    ghost predicate Contents()
      reads this
    {
      && Apart(store, held, written)
      && Forwarded(store, pending, held, objects)
      && Noted(seen, held, offered, objects)
    }

    ghost predicate Totals()
      reads this
    {
      && logical == OverSeq(offered, Ulen)
      && stored == |written| && bytesStored == OverSet(written, Ulen)
      && stored + deduped + |pending| + skippedDeduped == |offered|
    }

    ghost predicate Valid()
      reads this
    {
      Contents() && Totals()
    }

    constructor (held: set<Key>)
      ensures Valid() && this.held == held
      ensures offered == [] && objects == {}
    {
      this.held, this.offered, this.objects, this.written := held, [], {}, {};
      store, pending, logical, seen := held, [], 0, map[];
      skippedDeduped, stored, deduped, bytesStored := 0, 0, 0, 0;
    }

    /** account, then the object goes to the store writer. */
    method Account(k: Key)
      requires Valid()
      modifies this
      ensures Valid() && held == old(held)
      ensures offered == old(offered) + [k] && objects == old(objects) + {k}
    {
      hide OverSeq, OverSet, Forwarded, Noted;
      OverSeqAdd(offered, k, Ulen);
      ForwardedSteps(store, pending, held, objects, k);
      NotedSteps(store, pending, seen, held, offered, objects, k);
      logical := logical + k.ulen;
      if k !in seen { seen := seen[k := k !in store]; }
      pending := pending + [k];
      offered, objects := offered + [k], objects + {k};
    }

    /** accountSkipped: the key must still be in the store. */
    method AccountSkipped(k: Key) returns (ok: bool)
      requires Valid()
      modifies this
      ensures Valid() && held == old(held) && objects == old(objects)
      ensures ok ==> k in held + objects && offered == old(offered) + [k]
      ensures !ok ==> k !in held && offered == old(offered)
    {
      hide OverSeq, OverSet, Noted;
      if k !in store { return false; }
      OverSeqAdd(offered, k, Ulen);
      NotedSteps(store, pending, seen, held, offered, objects, k);
      logical := logical + k.ulen;
      if k !in seen { seen := seen[k := false]; }
      skippedDeduped := skippedDeduped + 1;
      offered := offered + [k];
      return true;
    }

    /** One store writer takes a forwarded object: stored once, then deduplicated. */
    method WriteOne(i: nat)
      requires Valid() && i < |pending|
      modifies this`store, this`pending, this`stored, this`deduped, this`bytesStored, this`written
      ensures Valid() && pending == old(pending)[..i] + old(pending)[i + 1..]
    {
      hide OverSeq, OverSet, Forwarded, Noted, Apart;
      var k := pending[i];
      ForwardedSteps(store, pending, held, objects, k);
      Stores(store, held, written, k);
      pending := pending[..i] + pending[i + 1..];
      if k in store {
        deduped := deduped + 1;
      } else {
        OverSetAdd(written, k, Ulen);
        store, stored, bytesStored := store + {k}, stored + 1, bytesStored + k.ulen;
        written := written + {k};
      }
    }

    /** The store writers get on with what they were given, in any order and as
        far as they come: each step of order takes one forwarded object. */
    method WriteSome(order: seq<nat>)
      requires Valid()
      modifies this`store, this`pending, this`stored, this`deduped, this`bytesStored, this`written
      ensures Valid()
    {
      hide Contents, Totals;
      for i := 0 to |order|
        invariant Valid()
      {
        if order[i] < |pending| { WriteOne(order[i]); }
      }
    }

    /** The channel is closed: the store writers finish what they were given. */
    method Drain()
      requires Valid()
      modifies this`store, this`pending, this`stored, this`deduped, this`bytesStored, this`written
      ensures Valid() && pending == []
    {
      hide Contents, Totals;
      while pending != []
        invariant Valid()
        decreases |pending|
      {
        WriteOne(0);
      }
    }

    /** The DiskBytes loop of finish, over the keys first seen absent. */
    method DiskBytes() returns (disk: nat)
      requires Contents() && pending == []
      ensures disk == OverSet(objects - held, Disk)
    {
      hide OverSet;
      disk := 0;
      var ks := seen.Keys;
      ghost var summed: set<Key> := {};
      EmptySum(Disk);
      while ks != {}
        invariant ks <= seen.Keys
        invariant summed == (set k | k in seen.Keys - ks && k !in held)
        invariant disk == OverSet(summed, Disk)
        decreases |ks|
      {
        var k :| k in ks;
        if seen[k] && k in store {
          OverSetAdd(summed, k, Disk);
          disk := disk + k.disk;
          summed := summed + {k};
        }
        ks := ks - {k};
      }
      assert summed == objects - held;
    }

    /** finish: the Stats once the store writer has returned. */
    method Finish() returns (st: Stats)
      requires Valid() && pending == []
      ensures st == StatsOf(offered, objects - held)
    {
      hide OverSeq, OverSet;
      var disk := DiskBytes();
      assert written == objects - held;
      return Stats(logical, bytesStored, logical - bytesStored, disk, stored, deduped + skippedDeduped);
    }
  }

  /** One more key in the store, or one that was there. */
  lemma {:induction false} Stores(store: set<Key>, held: set<Key>, written: set<Key>, k: Key)
    requires Apart(store, held, written)
    ensures k in store ==> store + {k} == store
    ensures k !in store ==> k !in written && Apart(store + {k}, held, written + {k}) && |written + {k}| == |written| + 1
  {
  }

  lemma {:induction false} EmptySum(z: Key -> nat)
    ensures OverSet({}, z) == 0
  {
  }

  // ---- Live and staged writing ----------------------------------------

  /** A live Writer offered objects one by one and closed. The store writers
      take steps before each object as orders tells. */
  method WriteLive(w: Writer, objects: seq<Key>, orders: seq<seq<nat>>) returns (st: Stats)
    requires w.Valid() && w.offered == [] && w.objects == {}
    modifies w
    ensures w.held == old(w.held) && st == LiveStats(w.held, objects)
  {
    hide Writer.Valid;
    OfferObjects(w, objects, orders);
    w.Drain();
    assert w.offered == objects && w.objects - w.held == (set k | k in objects) - w.held;
    st := w.Finish();
  }

  /** Emits objects in order. */
  method OfferObjects(w: Writer, objects: seq<Key>, orders: seq<seq<nat>>)
    requires w.Valid()
    modifies w
    ensures w.Valid() && w.held == old(w.held)
    ensures w.offered == old(w.offered) + objects
    ensures w.objects == old(w.objects) + set k | k in objects
  {
    hide Writer.Valid;
    for i := 0 to |objects|
      invariant w.Valid() && w.held == old(w.held)
      invariant w.offered == old(w.offered) + objects[..i]
      invariant w.objects == old(w.objects) + set k | k in objects[..i]
    {
      if i < |orders| { w.WriteSome(orders[i]); }
      w.Account(objects[i]);
      assert objects[..i + 1] == objects[..i] + [objects[i]];
    }
    assert objects[..|objects|] == objects;
  }

  /** A staged pack: the encoded records in file order, and the keys left out. */
  class StagedPack {
    const records: seq<Key>
    const skipped: seq<Key>
    var used: bool

    constructor (records: seq<Key>, skipped: seq<Key>)
      ensures this.records == records && this.skipped == skipped && !used
    {
      this.records, this.skipped, this.used := records, skipped, false;
    }
  }

  datatype Committed = Committed(stats: Stats) | Vanished(key: Key) | AlreadyAdded

  /** AddPack on a live Writer, then Close: records first, then the keys left
      out, each of which must still be in the store. */
  method CommitPack(w: Writer, p: StagedPack, orders: seq<seq<nat>>, skipOrders: seq<seq<nat>>) returns (r: Committed)
    requires w.Valid() && w.offered == [] && w.objects == {}
    modifies w, p`used
    ensures p.used && w.held == old(w.held) && (r.AlreadyAdded? <==> old(p.used))
    ensures r.Committed? ==> r.stats == LiveStats(w.held, p.records + p.skipped)
    ensures r.Vanished? ==> r.key in p.skipped && r.key !in w.held
    ensures !old(p.used) && (forall k :: k in p.skipped ==> k in w.held) ==> r.Committed?
  {
    hide Writer.Valid;
    if p.used { return AlreadyAdded; }
    p.used := true;
    OfferObjects(w, p.records, orders);
    var gone := OfferSkipped(w, p.skipped, skipOrders);
    if gone.Some? { return Vanished(gone.value); }
    w.Drain();
    assert w.offered == p.records + p.skipped;
    assert w.objects - w.held == (set k | k in p.records + p.skipped) - w.held;
    var st := w.Finish();
    return Committed(st);
  }

  method OfferSkipped(w: Writer, skipped: seq<Key>, orders: seq<seq<nat>>) returns (gone: Option<Key>)
    requires w.Valid()
    modifies w
    ensures w.Valid() && w.held == old(w.held) && w.objects == old(w.objects)
    ensures gone.None? ==> w.offered == old(w.offered) + skipped && forall k :: k in skipped ==> k in w.held + w.objects
    ensures gone.Some? ==> gone.value in skipped && gone.value !in w.held
  {
    hide Writer.Valid;
    for i := 0 to |skipped|
      invariant w.Valid() && w.held == old(w.held) && w.objects == old(w.objects)
      invariant w.offered == old(w.offered) + skipped[..i]
      invariant forall k :: k in skipped[..i] ==> k in w.held + w.objects
    {
      if i < |orders| { w.WriteSome(orders[i]); }
      var ok := w.AccountSkipped(skipped[i]);
      if !ok { return Some(skipped[i]); }
      assert skipped[..i + 1] == skipped[..i] + [skipped[i]];
    }
    assert skipped[..|skipped|] == skipped;
    return None;
  }

  // ---- Staging: encoders in any interleaving ----------------------------

  /** One object an encoder has taken, with the store's answer at that moment. */
  datatype Taken = Taken(key: Key, has: bool)

  datatype Staging = Staging(queue: seq<Key>, taken: seq<Taken>, records: seq<Key>, skipped: seq<Key>, logical: nat)

  /** A free encoder takes the next object and asks the store, which holds `store` at
      that moment, whether it has the key. */
  ghost predicate TakeStep(workers: nat, store: set<Key>, s: Staging, s': Staging) {
    && s.queue != [] && |s.taken| < workers
    && s' == s.(queue := s.queue[1..], taken := s.taken + [Taken(s.queue[0], s.queue[0] in store)])
  }

  /** Any encoder finishes: the key is noted as left out, or its record is
      appended to the file. */
  ghost predicate FinishStep(s: Staging, s': Staging, i: nat) {
    && i < |s.taken|
    && var t := s.taken[i];
       s' == s.(taken := s.taken[..i] + s.taken[i + 1..],
                records := if t.has then s.records else s.records + [t.key],
                skipped := if t.has then s.skipped + [t.key] else s.skipped,
                logical := s.logical + t.key.ulen)
  }

  ghost predicate StageStep(workers: nat, store: set<Key>, s: Staging, s': Staging) {
    TakeStep(workers, store, s, s') || exists i :: FinishStep(s, s', i)
  }

  /** A staging run: stores[i] is what the store holds at the i-th step, which may
      change in any way while the pack is staged. */
  ghost predicate StageRun(workers: nat, items: seq<Key>, stores: seq<set<Key>>, run: seq<Staging>) {
    && run != [] && |stores| == |run| && run[0] == Staging(items, [], [], [], 0)
    && forall i :: 0 <= i < |run| - 1 ==> StageStep(workers, stores[i], run[i], run[i + 1])
  }

  ghost function TakenKeys(ts: seq<Taken>): seq<Key> {
    if ts == [] then [] else TakenKeys(ts[..|ts| - 1]) + [ts[|ts| - 1].key]
  }

  /** Every object is queued, taken, encoded or left out, exactly once. */
  ghost predicate Conserved(items: seq<Key>, s: Staging) {
    && multiset(s.queue) + multiset(TakenKeys(s.taken)) + multiset(s.records) + multiset(s.skipped) == multiset(items)
    && s.logical == OverSeq(s.records, Ulen) + OverSeq(s.skipped, Ulen)
  }

  lemma {:induction false} TakenKeysSplit(a: seq<Taken>, b: seq<Taken>)
    ensures TakenKeys(a + b) == TakenKeys(a) + TakenKeys(b)
  {
    if b == [] {
      assert a + b == a;
    } else {
      assert (a + b)[..|a + b| - 1] == a + b[..|b| - 1];
      TakenKeysSplit(a, b[..|b| - 1]);
    }
  }

  lemma {:induction false} TakeConserves(workers: nat, items: seq<Key>, store: set<Key>, s: Staging, s': Staging)
    requires Conserved(items, s) && TakeStep(workers, store, s, s')
    ensures Conserved(items, s')
  {
    hide OverSeq, TakenKeys;
    var t := Taken(s.queue[0], s.queue[0] in store);
    TakenKeysSplit(s.taken, [t]);
    TakenKeyAlone(t);
    JoinBags(TakenKeys(s.taken), [t.key]);
    assert s.queue == [t.key] + s.queue[1..];
    JoinBags([t.key], s.queue[1..]);
  }

  lemma {:induction false} TakenRemoved(ts: seq<Taken>, i: nat)
    requires i < |ts|
    ensures multiset(TakenKeys(ts)) == multiset(TakenKeys(ts[..i] + ts[i + 1..])) + multiset{ts[i].key}
  {
    hide TakenKeys;
    var a, b, t := ts[..i], ts[i + 1..], ts[i];
    assert ts == a + ([t] + b);
    TakenKeysSplit(a, b);
    TakenKeysSplit(a, [t] + b);
    TakenKeysSplit([t], b);
    TakenKeyAlone(t);
  }

  lemma {:induction false} TakenKeyAlone(t: Taken)
    ensures TakenKeys([t]) == [t.key]
  {
    assert [t][..0] == [];
  }

  lemma {:induction false} FinishConserves(items: seq<Key>, s: Staging, s': Staging, i: nat)
    requires Conserved(items, s) && FinishStep(s, s', i)
    ensures Conserved(items, s')
  {
    hide OverSeq, TakenKeys;
    TakenRemoved(s.taken, i);
    OverSeqAdd(s.records, s.taken[i].key, Ulen);
    OverSeqAdd(s.skipped, s.taken[i].key, Ulen);
  }

  lemma {:induction false} RunConserves(workers: nat, items: seq<Key>, stores: seq<set<Key>>, run: seq<Staging>, n: nat)
    requires StageRun(workers, items, stores, run) && n < |run|
    ensures Conserved(items, run[n])
  {
    if n > 0 {
      RunConserves(workers, items, stores, run, n - 1);
      assert StageStep(workers, stores[n - 1], run[n - 1], run[n]);
      if TakeStep(workers, stores[n - 1], run[n - 1], run[n]) {
        TakeConserves(workers, items, stores[n - 1], run[n - 1], run[n]);
      } else {
        var i :| FinishStep(run[n - 1], run[n], i);
        FinishConserves(items, run[n - 1], run[n], i);
      }
    }
  }

  /** Before step n the store held the key, or lacked it. */
  ghost predicate Answered(stores: seq<set<Key>>, n: nat, k: Key, has: bool) {
    exists i :: 0 <= i < n && i < |stores| && (k in stores[i] <==> has)
  }

  /** Everything taken, left out or encoded is so by an answer of the store. */
  ghost predicate ByAnswer(stores: seq<set<Key>>, n: nat, s: Staging) {
    && (forall i :: 0 <= i < |s.taken| ==> Answered(stores, n, s.taken[i].key, s.taken[i].has))
    && (forall i :: 0 <= i < |s.skipped| ==> Answered(stores, n, s.skipped[i], true))
    && (forall i :: 0 <= i < |s.records| ==> Answered(stores, n, s.records[i], false))
  }

  lemma {:induction false} AnsweredLater(stores: seq<set<Key>>, n: nat, s: Staging)
    requires ByAnswer(stores, n, s)
    ensures ByAnswer(stores, n + 1, s)
  {
    assert forall k, has :: Answered(stores, n, k, has) ==> Answered(stores, n + 1, k, has);
    hide Answered;
  }

  /** A key is left out only after the store has held it, and encoded only after the
      store has lacked it, in every interleaving. */
  lemma {:induction false} LeftOutByAnswer(workers: nat, items: seq<Key>, stores: seq<set<Key>>, run: seq<Staging>,
      n: nat)
    requires StageRun(workers, items, stores, run) && n < |run|
    ensures ByAnswer(stores, n, run[n])
  {
    if n > 0 {
      LeftOutByAnswer(workers, items, stores, run, n - 1);
      AnsweredLater(stores, n - 1, run[n - 1]);
      assert StageStep(workers, stores[n - 1], run[n - 1], run[n]);
      if TakeStep(workers, stores[n - 1], run[n - 1], run[n]) {
        TakeAsks(workers, stores, n - 1, run[n - 1], run[n]);
      } else {
        var i: nat :| FinishStep(run[n - 1], run[n], i);
        FinishFollows(stores, n, run[n - 1], run[n], i);
      }
    }
  }

  lemma {:induction false} TakeAsks(workers: nat, stores: seq<set<Key>>, n: nat, s: Staging, s': Staging)
    requires n < |stores| && ByAnswer(stores, n + 1, s) && TakeStep(workers, stores[n], s, s')
    ensures ByAnswer(stores, n + 1, s')
  {
    assert Answered(stores, n + 1, s.queue[0], s.queue[0] in stores[n]);
    hide Answered;
  }

  lemma {:induction false} FinishFollows(stores: seq<set<Key>>, n: nat, s: Staging, s': Staging, i: nat)
    requires ByAnswer(stores, n, s) && FinishStep(s, s', i)
    ensures ByAnswer(stores, n, s')
  {
    hide Answered;
    assert Answered(stores, n, s.taken[i].key, s.taken[i].has);
    assert forall j :: 0 <= j < |s'.taken| ==> s'.taken[j] == if j < i then s.taken[j] else s.taken[j + 1];
  }

  /** If the store loses nothing between staging and commit, no key left out is gone. */
  lemma {:induction false} NothingLeftOutIsLost(workers: nat, items: seq<Key>, stores: seq<set<Key>>,
      run: seq<Staging>, held: set<Key>)
    requires StageRun(workers, items, stores, run) && forall i :: 0 <= i < |stores| ==> stores[i] <= held
    ensures forall k :: k in run[|run| - 1].skipped ==> k in held
  {
    var n := |run| - 1;
    LeftOutByAnswer(workers, items, stores, run, n);
    forall k | k in run[n].skipped ensures k in held {
      var j :| 0 <= j < |run[n].skipped| && run[n].skipped[j] == k;
      assert Answered(stores, n, run[n].skipped[j], true);
    }
  }

  /** Stats do not depend on the order objects are offered in. */
  lemma {:induction false} StatsIgnoreOrder(held: set<Key>, a: seq<Key>, b: seq<Key>)
    requires multiset(a) == multiset(b)
    ensures LiveStats(held, a) == LiveStats(held, b)
  {
    OverSeqIgnoresOrder(a, b, Ulen);
    assert |multiset(a)| == |multiset(b)|;
    forall k ensures k in a <==> k in b { assert k in multiset(a) <==> k in multiset(b); }
    assert (set k | k in a) == (set k | k in b);
  }

  /** Staging then committing: whatever order the encoders finish in, whatever
      the store answered while staging, and whatever it holds at commit time,
      the Stats of a commit are those of a live Writer offered the same objects
      against the commit-time store. The pack Writer's own LogicalBytes agree. */
  lemma {:induction false} StagedStatsAreLive(workers: nat, items: seq<Key>, stores: seq<set<Key>>, run: seq<Staging>,
      held: set<Key>)
    requires StageRun(workers, items, stores, run)
    requires run[|run| - 1].queue == [] && run[|run| - 1].taken == []
    ensures var s := run[|run| - 1];
      && LiveStats(held, s.records + s.skipped) == LiveStats(held, items)
      && s.logical == LiveStats(held, items).logicalBytes
  {
    var s := run[|run| - 1];
    RunConserves(workers, items, stores, run, |run| - 1);
    assert multiset(s.records + s.skipped) == multiset(s.records) + multiset(s.skipped);
    StatsIgnoreOrder(held, s.records + s.skipped, items);
    OverSeqJoin(s.records, s.skipped, Ulen);
  }

  /** The three together: a staging run that is through, its pack committed, and a
      live Writer offered the same objects against the same store. The commit
      reports what the live Writer reports, or that a key left out is gone, which it
      never does when the store has lost nothing since. */
  method StageCommitAndCompare(workers: nat, items: seq<Key>, ghost stores: seq<set<Key>>, run: seq<Staging>,
                               w: Writer, live: Writer, orders: seq<seq<nat>>, skipOrders: seq<seq<nat>>, liveOrders: seq<seq<nat>>)
    returns (r: Committed, st: Stats)
    requires StageRun(workers, items, stores, run) && run[|run| - 1].queue == [] && run[|run| - 1].taken == []
    requires w != live && w.Valid() && w.offered == [] && w.objects == {}
    requires live.Valid() && live.offered == [] && live.objects == {} && live.held == w.held
    modifies w, live
    ensures r.Committed? ==> r.stats == st
    ensures !r.AlreadyAdded? && (r.Vanished? ==> r.key in items && r.key !in old(w.held))
    ensures (forall i :: 0 <= i < |stores| ==> stores[i] <= old(w.held)) ==> r.Committed?
  {
    hide Writer.Contents, Writer.Totals, StageStep, LiveStats;
    ghost var held := w.held;
    var last := run[|run| - 1];
    StagedStatsAreLive(workers, items, stores, run, held);
    SkippedAreItems(workers, items, stores, run);
    if forall i :: 0 <= i < |stores| ==> stores[i] <= held { NothingLeftOutIsLost(workers, items, stores, run, held); }
    var pack := new StagedPack(last.records, last.skipped);
    r := CommitPack(w, pack, orders, skipOrders);
    st := WriteLive(live, items, liveOrders);
  }

  lemma {:induction false} SkippedAreItems(workers: nat, items: seq<Key>, stores: seq<set<Key>>, run: seq<Staging>)
    requires StageRun(workers, items, stores, run)
    ensures forall k :: k in run[|run| - 1].skipped ==> k in items
  {
    RunConserves(workers, items, stores, run, |run| - 1);
    hide StageStep;
    var s := run[|run| - 1];
    forall k | k in s.skipped ensures k in items { assert k in multiset(s.skipped) && k in multiset(items); }
  }
}
