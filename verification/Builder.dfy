/** Builder.Apply and its skip accounting (rootfs/builder.go). */
module Builder {
  import opened PathMap
  import opened Merge
  import opened MergeTree

  const MAX_SKIPPED: nat := 100

  datatype SkipRecord = SkipRecord(layer: string, path: Path, reason: string)

  /** What parseLayer returns: the entries, or an archive that does not parse. */
  datatype Parsed = Entries(entries: seq<Entry>) | Malformed

  function Note(layer: string, e: Entry, o: Outcome): seq<SkipRecord> {
    if o.Refused? then [SkipRecord(layer, e.path, o.reason)] else []
  }

  /** The entries the first pass refuses, and those the second one does. */
  function EraseSkips(f: Flat, layer: string, es: seq<Entry>): seq<SkipRecord> {
    if es == [] then []
    else
      var init, e := es[..|es| - 1], es[|es| - 1];
      EraseSkips(f, layer, init) + Note(layer, e, EraseStep(EraseAll(f, init), e).1)
  }

  function PlaceSkips(f: Flat, layer: string, es: seq<Entry>): seq<SkipRecord> {
    if es == [] then []
    else
      var init, e := es[..|es| - 1], es[|es| - 1];
      PlaceSkips(f, layer, init) + Note(layer, e, PlaceStep(PlaceAll(f, init), e).1)
  }

  /** Everything a layer has refused, in order. */
  function Skips(f: Flat, layer: string, es: seq<Entry>): seq<SkipRecord> {
    EraseSkips(f, layer, es) + PlaceSkips(EraseAll(f, es), layer, es)
  }

  class MergeBuilder {
    const t: Tree
    var skipped: seq<SkipRecord>
    var skippedCount: nat
    ghost var refused: seq<SkipRecord>

    ghost predicate Valid()
      reads this, t, t.at.Values
    {
      && t.Valid()
      && skippedCount == |refused|
      && skipped == refused[..if |refused| < MAX_SKIPPED then |refused| else MAX_SKIPPED]
    }

    constructor ()
      ensures Valid() && fresh(t) && fresh(t.at.Values)
      ensures t.View() == map[[] := IMPLICIT_DIR] && refused == []
    {
      t := new Tree();
      skipped, skippedCount, refused := [], 0, [];
    }

    /** Notes an entry the tree refused. */
    method Record(layer: string, e: Entry, o: Outcome)
      requires Valid()
      modifies this
      ensures Valid() && refused == old(refused) + Note(layer, e, o)
    {
      if o.Refused? {
        skippedCount := skippedCount + 1;
        if |skipped| < MAX_SKIPPED {
          skipped := skipped + [SkipRecord(layer, e.path, o.reason)];
        }
        refused := refused + [SkipRecord(layer, e.path, o.reason)];
      }
    }

    /** Merges a layer over the ones before it: its whiteouts first, then its
        entries in archive order. A malformed layer changes nothing. */
    method Apply(layer: string, parsed: Parsed) returns (ok: bool)
      requires Valid()
      modifies this, t, t.at.Values
      ensures Valid() && fresh(t.at.Values - old(t.at.Values))
      ensures ok == parsed.Entries?
      ensures ok ==> t.View() == ApplyLayer(old(t.View()), parsed.entries)
      ensures ok ==> refused == old(refused) + Skips(old(t.View()), layer, parsed.entries)
      ensures !ok ==> t.View() == old(t.View()) && refused == old(refused)
    {
      hide Tidy;
      if parsed.Malformed? { return false; }
      var es := parsed.entries;
      EraseLower(layer, es);
      PlaceEntries(layer, es);
      return true;
    }

    method EraseOne(layer: string, e: Entry)
      requires Valid()
      modifies this, t, t.at.Values
      ensures Valid() && fresh(t.at.Values - old(t.at.Values))
      ensures t.View() == EraseStep(old(t.View()), e).0
      ensures refused == old(refused) + Note(layer, e, EraseStep(old(t.View()), e).1)
    {
      hide Tidy, Erase, Clear, Tree.View;
      var o := Done;
      match e.action {
        case Whiteout => o := t.Whiteout(e.path);
        case Opaque => o := t.OpaqueDir(e.path);
        case _ =>
      }
      Record(layer, e, o);
    }

    method PlaceOne(layer: string, e: Entry)
      requires Valid()
      modifies this, t, t.at.Values
      ensures Valid() && fresh(t.at.Values - old(t.at.Values))
      ensures t.View() == PlaceStep(old(t.View()), e).0
      ensures refused == old(refused) + Note(layer, e, PlaceStep(old(t.View()), e).1)
    {
      hide Tidy, Merge.Put, Merge.Link, Tree.View;
      var o := Done;
      match e.action {
        case Place(info) => o := t.Put(e.path, info);
        case HardLink(target, meta) => o := t.Link(e.path, target, meta);
        case Skip(reason) => o := Refused(reason);
        case _ =>
      }
      Record(layer, e, o);
    }

    /** The first pass over a layer. */
    method EraseLower(layer: string, es: seq<Entry>)
      requires Valid()
      modifies this, t, t.at.Values
      ensures Valid() && fresh(t.at.Values - old(t.at.Values))
      ensures t.View() == EraseAll(old(t.View()), es)
      ensures refused == old(refused) + EraseSkips(old(t.View()), layer, es)
    {
      hide Tidy, EraseStep, Note, Valid, Tree.View;
      for i := 0 to |es|
        invariant Valid() && fresh(t.at.Values - old(t.at.Values))
        invariant t.View() == EraseAll(old(t.View()), es[..i])
        invariant refused == old(refused) + EraseSkips(old(t.View()), layer, es[..i])
      {
        assert es[..i + 1][..i] == es[..i];
        EraseOne(layer, es[i]);
      }
      assert es[..|es|] == es;
    }

    /** The second pass over a layer. */
    method PlaceEntries(layer: string, es: seq<Entry>)
      requires Valid()
      modifies this, t, t.at.Values
      ensures Valid() && fresh(t.at.Values - old(t.at.Values))
      ensures t.View() == PlaceAll(old(t.View()), es)
      ensures refused == old(refused) + PlaceSkips(old(t.View()), layer, es)
    {
      hide Tidy, PlaceStep, Note, Valid, Tree.View;
      for i := 0 to |es|
        invariant Valid() && fresh(t.at.Values - old(t.at.Values))
        invariant t.View() == PlaceAll(old(t.View()), es[..i])
        invariant refused == old(refused) + PlaceSkips(old(t.View()), layer, es[..i])
      {
        assert es[..i + 1][..i] == es[..i];
        PlaceOne(layer, es[i]);
      }
      assert es[..|es|] == es;
    }
  }
}
