/** The whole rootfs pipeline of image/rootfs.go: layers merged in order, the
    tree written, and every path of it readable again. */
module RootfsBuild {
  import opened PathMap
  import opened Merge
  import opened MergeTree
  import opened Builder
  import opened StoredTree
  import opened FsWalker
  import opened LayerEntries

  datatype Layer = Layer(digest: string, parsed: Parsed)

  datatype Rootfs =
    | RootfsOK(root: Key, entries: nat)
    | RootfsPartial(root: Key, entries: nat, skipped: seq<SkipRecord>, skippedCount: nat)
    | RootfsUnavailable
    | WriteFailed

  const EMPTY_ROOT: Flat := map[[] := IMPLICIT_DIR]

  ghost predicate AllParse(layers: seq<Layer>) {
    forall i :: 0 <= i < |layers| ==> layers[i].parsed.Entries?
  }

  /** The layers merged in order over an empty root. */
  ghost function Merged(layers: seq<Layer>): Flat
    requires AllParse(layers)
  {
    if layers == [] then EMPTY_ROOT
    else ApplyLayer(Merged(layers[..|layers| - 1]), layers[|layers| - 1].parsed.entries)
  }

  /** Every entry refused on the way. */
  ghost function AllSkips(layers: seq<Layer>): seq<SkipRecord>
    requires AllParse(layers)
  {
    if layers == [] then []
    else
      var init, l := layers[..|layers| - 1], layers[|layers| - 1];
      AllSkips(init) + Skips(Merged(init), l.digest, l.parsed.entries)
  }

  lemma {:induction false} MergedWellFormed(layers: seq<Layer>)
    requires AllParse(layers)
    ensures WellFormed(Merged(layers))
  {
    if layers != [] {
      var init, es := layers[..|layers| - 1], layers[|layers| - 1].parsed.entries;
      MergedWellFormed(init);
      EraseAllWellFormed(Merged(init), es);
      PlaceAllWellFormed(EraseAll(Merged(init), es), es);
    }
  }

  ghost predicate AllLegal(layers: seq<Layer>)
    requires AllParse(layers)
  {
    forall i :: 0 <= i < |layers| ==> LegalEntries(layers[i].parsed.entries)
  }

  /** Some layer hangs "." and no layer after it takes it away. */
  ghost predicate DotLeft(layers: seq<Layer>)
    requires AllParse(layers)
  {
    layers != [] &&
    var init, es := layers[..|layers| - 1], layers[|layers| - 1].parsed.entries;
    SomeDot(EraseAll(Merged(init), es), es) || (DotLeft(init) && !SomeTake(Merged(init), es))
  }

  lemma {:induction false} MergedNearly(layers: seq<Layer>)
    requires AllParse(layers) && AllLegal(layers)
    ensures NearlyLegal(Merged(layers)) && (DOT in Merged(layers) <==> DotLeft(layers))
  {
    hide NearlyLegal, SomeDot, SomeTake, LegalEntries;
    if layers == [] {
      EmptyIsLegal();
    } else {
      var init, es := layers[..|layers| - 1], layers[|layers| - 1].parsed.entries;
      MergedNearly(init);
      LayerKeepsLegalNames(Merged(init), es);
    }
  }

  lemma {:induction false} EmptyIsLegal()
    ensures NearlyLegal(EMPTY_ROOT) && DOT !in EMPTY_ROOT
  {
    assert DOT != [];
  }

  /** Whole images: whatever the layers, the merged tree can be stored if and only
      if none of them leaves something under "." that no later one takes away, and
      no symlink that is left has an empty target. */
  lemma {:induction false} ImageStorableExactly(layers: seq<Layer>)
    requires AllParse(layers) && AllLegal(layers)
    ensures Storable(Merged(layers), []) <==> !DotLeft(layers) && NoEmptyTarget(Merged(layers))
  {
    hide NearlyLegal, Storable, DotLeft, NoEmptyTarget;
    MergedWellFormed(layers);
    MergedNearly(layers);
    NearlyStorable(Merged(layers));
  }

  /** Every request path reads from the stored tree what the merged layers hold
      where the path leads: kind, content and metadata, or the same error. */
  ghost predicate Readable(objects: Objects, root: Key, keyOf: KeyMap, f: Flat) {
    forall p: string ::
      ReadsAs(f, keyOf, FsWalk(objects, [RootEntry(root)], Clean(p), 0), LeadsTo(f, [], Clean(p), 0))
  }

  method BuildRootfs(layers: seq<Layer>, w: ObjectStore) returns (r: Rootfs, ghost keyOf: KeyMap)
    requires w.Valid()
    modifies w
    ensures w.Valid() && Grows(old(w.objects), w.objects)
    ensures r.RootfsUnavailable? <==> !AllParse(layers)
    ensures AllParse(layers) ==> (r.WriteFailed? <==> !Storable(Merged(layers), []))
    ensures AllParse(layers) && AllLegal(layers) ==>
      (r.WriteFailed? <==> DotLeft(layers) || !NoEmptyTarget(Merged(layers)))
    ensures r.RootfsOK? || r.RootfsPartial? ==>
      && r.entries == |Merged(layers)| - 1
      && Readable(w.objects, r.root, keyOf, Merged(layers))
      && (r.RootfsPartial? <==> AllSkips(layers) != [])
    ensures r.RootfsPartial? ==>
      && r.skippedCount == |AllSkips(layers)|
      && r.skipped == AllSkips(layers)[..if r.skippedCount < 100 then r.skippedCount else 100]
  {
    hide Tidy, Storable, ApplyLayer, Skips, Holds, CollisionFree, Addressed, DotLeft, NoEmptyTarget, AllLegal;
    keyOf := map[];
    var b := new MergeBuilder();
    ghost var f := EMPTY_ROOT;
    for i := 0 to |layers|
      invariant b.Valid() && fresh(b) && fresh(b.t) && fresh(b.t.at.Values)
      invariant AllParse(layers[..i])
      invariant b.t.View() == Merged(layers[..i]) && b.refused == AllSkips(layers[..i])
      invariant w.Valid() && w.objects == old(w.objects)
    {
      assert layers[..i + 1][..i] == layers[..i];
      var ok := b.Apply(layers[i].digest, layers[i].parsed);
      if !ok { return RootfsUnavailable, keyOf; }
    }
    assert layers[..|layers|] == layers;
    f := b.t.View();
    MergedWellFormed(layers);
    if AllLegal(layers) { ImageStorableExactly(layers); }
    var e;
    e, keyOf := WriteTree(w, b.t);
    if e.Rejected? { return WriteFailed, keyOf; }
    forall p: string
      ensures ReadsAs(f, keyOf, FsWalk(w.objects, [RootEntry(e.key)], Clean(p), 0), LeadsTo(f, [], Clean(p), 0))
    {
      StatReadsWhatIsThere(w.objects, f, keyOf, p);
    }
    if b.skippedCount > 0 { return RootfsPartial(e.key, e.count, b.skipped, b.skippedCount), keyOf; }
    return RootfsOK(e.key, e.count), keyOf;
  }
}
