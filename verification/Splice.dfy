/** The stream a layer is parsed from (splice in rootfs/layer.go): a recipe and the
    contents cut out of it, put together again while it is read, with seeks that
    read no content. */
module Splice {
  import opened Wrappers

  /** One index entry: where in the recipe the content was cut out, its size. */
  datatype Region = Region(offset: nat, size: nat)

  /** Sizes of the first i regions together. */
  function Shift(rs: seq<Region>, i: nat): nat
    requires i <= |rs|
  {
    if i == 0 then 0 else Shift(rs, i - 1) + rs[i - 1].size
  }

  function Start(rs: seq<Region>, i: nat): nat
    requires i < |rs|
  {
    rs[i].offset + Shift(rs, i)
  }

  function End(rs: seq<Region>, i: nat): nat
    requires i < |rs|
  {
    Start(rs, i) + rs[i].size
  }

  lemma {:induction false} ShiftStep(rs: seq<Region>, i: nat)
    requires i < |rs|
    ensures Shift(rs, i + 1) == Shift(rs, i) + rs[i].size
  {
  }

  /** The index lists the regions in archive order. */
  ghost predicate Sorted(rs: seq<Region>) {
    forall i :: 0 <= i < |rs| - 1 ==> rs[i].offset <= rs[i + 1].offset
  }

  lemma {:induction false} EndsBeforeLater(rs: seq<Region>, i: nat, j: nat)
    requires Sorted(rs) && i < j < |rs|
    ensures End(rs, i) <= Start(rs, j)
  {
    if i < j - 1 { EndsBeforeLater(rs, i, j - 1); }
  }

  // ---- The plain archive --------------------------------------------------

  /** Where a virtual offset lies, looking from region i on. */
  datatype Place = InRegion(region: nat, at: int) | InRecipe(at: int)

  function Locate(rs: seq<Region>, i: nat, v: nat): Place
    requires i <= |rs|
    decreases |rs| - i
  {
    if i == |rs| || v < Start(rs, i) then InRecipe(v - Shift(rs, i))
    else if v < End(rs, i) then InRegion(i, v - Start(rs, i))
    else Locate(rs, i + 1, v)
  }

  lemma {:induction false} LocatePast(rs: seq<Region>, i: nat, k: nat, v: nat)
    requires i <= k <= |rs| && forall j :: i <= j < k ==> End(rs, j) <= v
    ensures Locate(rs, i, v) == Locate(rs, k, v)
    decreases k - i
  {
    if i < k {
      assert End(rs, i) <= v;
      LocatePast(rs, i + 1, k, v);
    }
  }

  /** Every region has its content, whole, and is cut out inside the recipe. */
  ghost predicate Complete(rs: seq<Region>, recipe: seq<Byte>, contents: seq<seq<Byte>>) {
    && Sorted(rs) && |contents| == |rs|
    && forall i :: 0 <= i < |rs| ==> rs[i].offset <= |recipe| && |contents[i]| == rs[i].size
  }

  /** The archive from recipe offset o on, regions i and later spliced in. */
  ghost function Spliced(rs: seq<Region>, recipe: seq<Byte>, contents: seq<seq<Byte>>, i: nat, o: nat): seq<Byte>
    requires Complete(rs, recipe, contents) && i <= |rs| && o <= |recipe| && (i < |rs| ==> o <= rs[i].offset)
    decreases |rs| - i
  {
    if i == |rs| then recipe[o..]
    else recipe[o..rs[i].offset] + contents[i] + Spliced(rs, recipe, contents, i + 1, rs[i].offset)
  }

  /** The byte at a place. */
  ghost function ByteAt(recipe: seq<Byte>, contents: seq<seq<Byte>>, p: Place): Byte
    requires p.InRegion? ==> p.region < |contents| && 0 <= p.at < |contents[p.region]|
    requires p.InRecipe? ==> 0 <= p.at < |recipe|
  {
    if p.InRegion? then contents[p.region][p.at] else recipe[p.at]
  }

  /** Locate finds byte v of the spliced archive. */
  lemma {:induction false} LocateIsSplice(rs: seq<Region>, recipe: seq<Byte>, contents: seq<seq<Byte>>, i: nat,
      o: nat, v: nat)
    requires Complete(rs, recipe, contents) && i <= |rs| && o <= |recipe| && (i < |rs| ==> o <= rs[i].offset)
    requires o + Shift(rs, i) <= v < o + Shift(rs, i) + |Spliced(rs, recipe, contents, i, o)|
    ensures var p := Locate(rs, i, v);
      && (p.InRegion? ==> p.region < |contents| && 0 <= p.at < |contents[p.region]|)
      && (p.InRecipe? ==> 0 <= p.at < |recipe|)
      && Spliced(rs, recipe, contents, i, o)[v - (o + Shift(rs, i))] == ByteAt(recipe, contents, p)
    decreases |rs| - i
  {
    if i < |rs| {
      var a, c, rest := recipe[o..rs[i].offset], contents[i], Spliced(rs, recipe, contents, i + 1, rs[i].offset);
      var k := v - (o + Shift(rs, i));
      assert Spliced(rs, recipe, contents, i, o) == a + c + rest;
      if v >= End(rs, i) {
        LocateIsSplice(rs, recipe, contents, i + 1, rs[i].offset, v);
        assert (a + c + rest)[k] == rest[k - |a| - |c|];
      }
    }
  }

  // ---- Where a header is met ------------------------------------------------

  /** Where the reader stood: its position, and the one it had when it was last
      compared with the regions, -1 before that. */
  datatype Spot = Spot(pos: nat, looked: int)

  /** k is the first region that does not lie behind looked. */
  ghost predicate Ahead(rs: seq<Region>, looked: int, k: nat) {
    k < |rs| && looked < End(rs, k) && forall j :: 0 <= j < k ==> End(rs, j) <= looked
  }

  /** In region k, its two ends included, while none was ahead of it. */
  ghost predicate InPlace(rs: seq<Region>, m: Spot, k: nat) {
    Ahead(rs, m.looked, k) && Start(rs, k) <= m.pos <= End(rs, k)
  }

  lemma {:induction false} OneAhead(rs: seq<Region>, looked: int, k: nat, j: nat)
    requires Ahead(rs, looked, k) && Ahead(rs, looked, j)
    ensures k == j
  {
  }

  /** A reader that has read the header in front of region k and nothing after it is
      in place, also when the region is empty. */
  lemma {:induction false} HeaderBeforeItsContent(rs: seq<Region>, looked: int, k: nat)
    requires Sorted(rs) && k < |rs| && looked < Start(rs, k) && (k > 0 ==> End(rs, k - 1) <= looked)
    ensures InPlace(rs, Spot(Start(rs, k), looked), k)
  {
    forall j | 0 <= j < k ensures End(rs, j) <= looked {
      if j < k - 1 { EndsBeforeLater(rs, j, k - 1); }
    }
  }

  // ---- The reader -----------------------------------------------------------

  datatype ReadError = NoError | Eof | StoreError

  /** What the reader underneath does on one call: how many bytes it hands out
      at most, and whether it fails. */
  datatype Io = Io(give: nat, fails: bool)

  function Min(a: nat, b: nat): nat {
    if a < b then a else b
  }

  /** newSplice's loop: the virtual offset where each region starts. */
  method Starts(rs: seq<Region>) returns (starts: seq<nat>)
    ensures |starts| == |rs| && forall i :: 0 <= i < |rs| ==> starts[i] == Start(rs, i)
  {
    starts := [];
    var shift := 0;
    for i := 0 to |rs|
      invariant |starts| == i && shift == Shift(rs, i)
      invariant forall j :: 0 <= j < i ==> starts[j] == Start(rs, j)
    {
      starts := starts + [rs[i].offset + shift];
      shift := shift + rs[i].size;
    }
  }

  class Reader {
    const rs: seq<Region>
    const starts: seq<nat>
    const recipe: seq<Byte>
    const contents: seq<seq<Byte>>   // what each blob really holds
    const canSkip: bool              // the recipe has a Skip of its own

    var pos: nat
    var next: nat             // regions before it lie behind pos
    var content: Option<nat>  // how far region next's own content has been read, once opened
    var zeros: bool           // region next was entered by a seek: no content, zero bytes
    var matched: int          // the index RegionAt returned most recently, -1 at first
    var recipePos: nat        // the recipe reader's position
    ghost var touched: set<nat>  // regions a seek has moved in
    ghost var looked: int        // where pos was last compared with the regions, -1 at first
    ghost var met: seq<Spot>     // where it stood at each call of RegionAt

    /** Region bytes between the start of region next and pos. */
    ghost function Inside(): nat
      reads this`pos, this`next
      requires next <= |rs|
    {
      if next < |rs| && pos > Start(rs, next) then pos - Start(rs, next) else 0
    }

    ghost predicate Valid()
      reads this
    {
      && Placed() && -1 <= looked <= pos
      && (forall i :: 0 <= i < next ==> End(rs, i) <= looked)
      && (next < |rs| ==> looked < End(rs, next))
    }

    /** Everything about the position but when it was last looked at. */
    ghost predicate Placed()
      reads this`pos, this`next, this`content, this`zeros, this`matched, this`recipePos, this`touched
    {
      && Sorted(rs) && |contents| == |rs| && |starts| == |rs|
      && (forall i :: 0 <= i < |rs| ==> starts[i] == Start(rs, i))
      && next <= |rs| && -1 <= matched < |rs| && matched <= next
      && (forall i :: 0 <= i < next ==> End(rs, i) <= pos)
      && (next < |rs| ==> pos <= End(rs, next))
      && recipePos + Shift(rs, next) + Inside() == pos
      && (zeros <==> next < |rs| && next in touched)
      && (content.Some? ==> next < |rs| && !zeros && Start(rs, next) + content.value == pos && content.value <= |contents[next]|)
      && (next < |rs| && Start(rs, next) < pos < End(rs, next) ==> zeros || content.Some?)
      && (forall i :: i in touched ==> i <= next && i < |rs| && Start(rs, i) < pos)
    }

    constructor (rs: seq<Region>, recipe: seq<Byte>, contents: seq<seq<Byte>>, canSkip: bool)
      requires Sorted(rs) && |contents| == |rs|
      ensures Valid() && pos == 0 && touched == {} && matched == -1 && looked == -1 && met == []
      ensures this.rs == rs && this.recipe == recipe && this.contents == contents
    {
      var starts := Starts(rs);
      this.rs, this.starts, this.recipe, this.contents, this.canSkip := rs, starts, recipe, contents, canSkip;
      pos, next, content, zeros, matched, recipePos, touched, looked, met := 0, 0, None, false, -1, 0, {}, -1, [];
    }

    /** Brings next up to date with pos: the answer is whether region next has begun. */
    method InsideRegion() returns (b: bool)
      requires Valid()
      modifies this`next, this`content, this`zeros, this`looked
      ensures Valid() && next >= old(next) && looked == pos
      ensures next < |rs| ==> pos < End(rs, next)
      ensures b <==> next < |rs| && Start(rs, next) <= pos
      ensures next == old(next) ==> content == old(content) && zeros == old(zeros)
    {
      hide Placed, Shift;
      PlacedFacts();
      while next < |starts| && pos >= starts[next] + rs[next].size
        invariant Placed() && next >= old(next) && next <= |rs| == |starts|
        invariant forall i :: 0 <= i < |rs| ==> starts[i] == Start(rs, i)
        invariant forall i :: 0 <= i < next ==> End(rs, i) <= pos
        invariant next == old(next) ==> content == old(content) && zeros == old(zeros)
        decreases |rs| - next
      {
        PassRegion();
      }
      looked := pos;
      b := next < |starts| && pos >= starts[next];
    }

    lemma {:induction false} PlacedFacts()
      requires Placed()
      ensures next <= |rs| == |starts|
      ensures forall i :: 0 <= i < |rs| ==> starts[i] == Start(rs, i)
      ensures forall i :: 0 <= i < next ==> End(rs, i) <= pos
    {
    }

    /** Region next lies behind. */
    method PassRegion()
      requires Placed() && next < |rs| && pos >= End(rs, next)
      modifies this`next, this`content, this`zeros
      ensures Placed() && next == old(next) + 1
    {
      hide Shift;
      ShiftStep(rs, next);
      if next + 1 < |rs| { EndsBeforeLater(rs, next, next + 1); }
      content, zeros := None, false;
      next := next + 1;
    }

    /** b is what is served at virtual offset v: byte v of the spliced archive,
        or zero inside a region a seek has moved in. */
    ghost predicate Served(v: nat, b: Byte)
      reads this
    {
      var p := Locate(rs, 0, v);
      if p.InRecipe? then 0 <= p.at < |recipe| && b == recipe[p.at]
      else if p.region in touched then b == 0
      else p.region < |contents| && 0 <= p.at < |contents[p.region]| && b == contents[p.region][p.at]
    }

    /** Where the bytes from pos on lie, once next has been moved up. */
    lemma {:induction false} HereIs(v: nat)
      requires Valid() && v >= pos
      ensures next < |rs| && Start(rs, next) <= v < End(rs, next) ==>
        Locate(rs, 0, v) == InRegion(next, v - Start(rs, next))
      ensures (next < |rs| ==> v < Start(rs, next)) ==> Locate(rs, 0, v) == InRecipe(v - Shift(rs, next))
    {
      LocatePast(rs, 0, next, v);
    }

    /** All of region next from pos on is located in it. */
    lemma {:induction false} RestOfRegion(n: nat)
      requires Valid() && next < |rs| && Start(rs, next) <= pos && pos + n <= End(rs, next)
      ensures forall v :: pos <= v < pos + n ==> Locate(rs, 0, v) == InRegion(next, v - Start(rs, next))
    {
      hide Shift, Locate, Valid;
      forall v | pos <= v < pos + n ensures Locate(rs, 0, v) == InRegion(next, v - Start(rs, next)) { HereIs(v); }
    }

    /** Every region has its content and the recipe is whole. */
    ghost predicate Whole() { Complete(rs, recipe, contents) }

    /** How long the archive is. */
    ghost function Total(): nat { |recipe| + Shift(rs, |rs|) }

    /** Read from the open content of region next. */
    method ReadContent(want: nat, io: Io) returns (out: seq<Byte>, err: ReadError)
      requires Valid() && content.Some? && next < |rs| && Start(rs, next) <= pos && pos + want <= End(rs, next)
      modifies this`pos, this`content
      ensures Valid() && |out| <= want && pos == old(pos) + |out|
      ensures forall j :: 0 <= j < |out| ==> Served(old(pos) + j, out[j])
      ensures err != Eof
      ensures Whole() && want > 0 && io.give > 0 && !io.fails ==> out != [] && err == NoError
    {
      hide Shift, Locate;
      RestOfRegion(want);
      var at := content.value;
      var k := Min(Min(io.give, want), |contents[next]| - at);
      out := contents[next][at..at + k];
      pos, content := pos + k, Some(at + k);
      if io.fails || (k == 0 && at == |contents[next]|) { return out, StoreError; }
      return out, NoError;
    }

    /** Read inside region next: real content from the start of the region on,
        zeros after a seek. */
    method ReadRegion(n: nat, io: Io) returns (out: seq<Byte>, err: ReadError)
      requires Valid() && n > 0 && next < |rs| && Start(rs, next) <= pos < End(rs, next)
      modifies this`pos, this`content
      ensures Valid() && |out| <= n && pos == old(pos) + |out|
      ensures forall j :: 0 <= j < |out| ==> Served(old(pos) + j, out[j])
      ensures err != Eof
      ensures Whole() && io.give > 0 && !io.fails ==> out != [] && err == NoError
    {
      hide Shift, Locate, Complete;
      var want := Min(n, starts[next] + rs[next].size - pos);
      if !zeros && content.None? && pos == starts[next] {
        if io.fails { return [], StoreError; }
        content := Some(0);
      }
      if content.Some? {
        out, err := ReadContent(want, io);
        return;
      }
      RestOfRegion(want);
      out := seq(want, _ => 0);
      pos := pos + want;
      return out, NoError;
    }

    /** Read outside every region: recipe bytes, up to the next region. */
    method ReadRecipe(n: nat, io: Io) returns (out: seq<Byte>, err: ReadError)
      requires Valid() && n > 0 && (next < |rs| ==> pos < Start(rs, next))
      modifies this`pos, this`recipePos
      ensures Valid() && |out| <= n && pos == old(pos) + |out|
      ensures forall j :: 0 <= j < |out| ==> Served(old(pos) + j, out[j])
      ensures err == Eof ==> out == [] && recipePos >= |recipe|
      ensures Whole() && io.give > 0 && !io.fails && old(pos) < Total() ==> out != [] && err == NoError
      ensures Whole() && !io.fails && old(pos) >= Total() ==> err == Eof
      ensures Whole() && err == Eof ==> pos >= Total()
    {
      hide Shift, Locate, Complete;
      if Whole() { RecipeEndsAtTheEnd(); }
      ghost var p0 := pos;
      var want := n;
      if next < |starts| { want := Min(n, starts[next] - pos); }
      if recipePos >= |recipe| { return [], if io.fails then StoreError else Eof; }
      var k := Min(Min(io.give, want), |recipe| - recipePos);
      out := recipe[recipePos..recipePos + k];
      forall v | p0 <= v < p0 + k ensures Locate(rs, 0, v) == InRecipe(v - Shift(rs, next)) { HereIs(v); }
      pos, recipePos := pos + k, recipePos + k;
      return out, if io.fails then StoreError else NoError;
    }

    /** Outside every region the recipe is used up exactly when the archive is. */
    lemma {:induction false} RecipeEndsAtTheEnd()
      requires Valid() && Whole() && (next < |rs| ==> pos < Start(rs, next))
      ensures recipePos >= |recipe| <==> pos >= Total()
    {
      if next < |rs| { ShiftGrows(rs, next, |rs|); }
    }

    lemma {:induction false} RegionEndsInside()
      requires Whole() && next < |rs|
      ensures End(rs, next) <= Total()
    {
      ShiftStep(rs, next);
      ShiftGrows(rs, next + 1, |rs|);
    }

    /** The archive as an io.Reader: a read gets somewhere unless the reader below
        fails, and the end is reported at the end. */
    method Read(n: nat, io: Io) returns (out: seq<Byte>, err: ReadError)
      requires Valid()
      modifies this`pos, this`next, this`content, this`zeros, this`recipePos, this`looked
      ensures Valid() && |out| <= n && pos == old(pos) + |out|
      ensures looked == if n == 0 then old(looked) else old(pos)
      ensures forall j :: 0 <= j < |out| ==> Served(old(pos) + j, out[j])
      ensures Whole() && n > 0 && io.give > 0 && !io.fails && old(pos) < Total() ==> out != [] && err == NoError
      ensures Whole() && n > 0 && !io.fails && old(pos) >= Total() ==> err == Eof
      ensures Whole() && err == Eof ==> pos >= Total()
    {
      hide Valid, Served, Whole, Total;
      if n == 0 { return [], NoError; }
      var inside := InsideRegion();
      if inside && Whole() { RegionEndsInside(); }
      if inside { out, err := ReadRegion(n, io); } else { out, err := ReadRecipe(n, io); }
    }
  
    /** The regions with a byte in [a, b). */
    ghost function Crossed(a: nat, b: nat): set<nat> {
      set i | 0 <= i < |rs| && a < b && a < End(rs, i) && Start(rs, i) < b && Start(rs, i) < End(rs, i)
    }

    lemma {:induction false} CrossedStep(a: nat, b: nat)
      requires Valid() && a <= pos < b && (next < |rs| ==> pos < End(rs, next))
      ensures next < |rs| && Start(rs, next) <= pos && b <= End(rs, next) ==> Crossed(a, b) == Crossed(a, pos) + {next}
      ensures (next < |rs| ==> b <= Start(rs, next)) ==> Crossed(a, b) == Crossed(a, pos)
    {
      hide Shift;
      forall j | next < j < |rs| ensures End(rs, next) <= Start(rs, j) { EndsBeforeLater(rs, next, j); }
      forall j | 0 <= j < next ensures Start(rs, j) < End(rs, j) ==> Start(rs, j) < pos { assert End(rs, j) <= pos; }
    }

    /** A seek inside region next: nothing is read, the rest becomes zeros. */
    method SeekRegion(target: nat)
      requires Valid() && next < |rs| && Start(rs, next) <= pos < End(rs, next) && pos < target
      modifies this`pos, this`content, this`zeros, this`touched
      ensures Valid() && old(pos) < pos <= target && pos <= End(rs, next)
      ensures touched == old(touched) + {next}
    {
      hide Shift;
      content, zeros := None, true;
      pos := Min(target, starts[next] + rs[next].size);
      touched := touched + {next};
    }

    /** A seek over recipe bytes, with the recipe's Skip or by reading; reading that
        fails has moved over what it got. */
    method SeekRecipe(target: nat, io: Io) returns (err: ReadError)
      requires Valid() && pos < target && (next < |rs| ==> pos < Start(rs, next))
      modifies this`pos, this`recipePos
      ensures Valid() && old(pos) <= pos <= target && (next < |rs| ==> pos <= Start(rs, next))
      ensures err == NoError ==> pos > old(pos)
      ensures err == Eof ==> !canSkip && recipePos >= |recipe|
      ensures err == StoreError <==> io.fails
    {
      hide Shift;
      var n := target - pos;
      if next < |starts| { n := Min(n, starts[next] - pos); }
      if canSkip {
        if io.fails { return StoreError; }
        pos, recipePos := pos + n, recipePos + n;
        return NoError;
      }
      var m := if recipePos >= |recipe| then 0 else Min(n, |recipe| - recipePos);
      if io.fails { m := Min(m, io.give); }
      pos, recipePos := pos + m, recipePos + m;
      return if io.fails then StoreError else if m < n then Eof else NoError;
    }

    /** A forward io.SeekCurrent, piece by piece: regions by arithmetic, what is
        between them through the recipe, any piece of which may fail. A recipe that
        ends early leaves the position at its end. */
    method Seek(offset: nat, ios: seq<Io>) returns (err: ReadError)
      requires Valid()
      modifies this`pos, this`next, this`content, this`zeros, this`recipePos, this`touched, this`looked
      ensures Valid() && old(pos) <= pos <= old(pos) + offset && err != Eof
      ensures err == NoError && pos < old(pos) + offset ==> !canSkip && recipePos >= |recipe|
      ensures (forall i :: 0 <= i < |ios| ==> !ios[i].fails) ==> err == NoError
      ensures touched == old(touched) + Crossed(old(pos), pos)
      ensures if offset == 0 then looked == old(looked) else old(pos) <= looked
      ensures offset > 0 && pos == old(pos) + offset ==> looked < pos
    {
      hide Valid, Crossed;
      var target, piece := pos + offset, 0;
      assert Crossed(pos, pos) == {} by { NothingCrossed(pos); }
      while pos < target
        invariant Valid() && old(pos) <= pos <= target
        invariant touched == old(touched) + Crossed(old(pos), pos)
        invariant if pos == old(pos) then looked == old(looked) else old(pos) <= looked < pos
        decreases target - pos
      {
        var inside := InsideRegion();
        CrossedAhead(old(pos));
        if inside {
          SeekRegion(target);
        } else {
          var e := SeekRecipe(target, if piece < |ios| then ios[piece] else Io(0, false));
          piece := piece + 1;
          if e == Eof { return NoError; }
          if e == StoreError { return StoreError; }
        }
      }
      return NoError;
    }

    lemma {:induction false} NothingCrossed(a: nat)
      ensures Crossed(a, a) == {}
    {
    }

    lemma {:induction false} CrossedAhead(a: nat)
      requires Valid() && a <= pos && (next < |rs| ==> pos < End(rs, next))
      ensures forall b :: pos < b ==>
        && (next < |rs| && Start(rs, next) <= pos && b <= End(rs, next) ==> Crossed(a, b) == Crossed(a, pos) + {next})
        && ((next < |rs| ==> b <= Start(rs, next)) ==> Crossed(a, b) == Crossed(a, pos))
    {
      hide Valid, Crossed;
      forall b | pos < b
        ensures next < |rs| && Start(rs, next) <= pos && b <= End(rs, next) ==>
          Crossed(a, b) == Crossed(a, pos) + {next}
        ensures (next < |rs| ==> b <= Start(rs, next)) ==> Crossed(a, b) == Crossed(a, pos)
      {
        CrossedStep(a, b);
      }
    }

    lemma {:induction false} AheadIsNext(k: nat)
      requires Valid() && Ahead(rs, looked, k)
      ensures k == next
    {
    }

    /** Which region the header just parsed belongs to: the first one ahead, if pos
        is in it and no earlier header got it. */
    method RegionAt() returns (i: nat, ok: bool)
      requires Valid()
      modifies this`matched, this`met
      ensures Valid() && matched == (if ok then i else old(matched)) && met == old(met) + [Spot(pos, looked)]
      ensures ok <==> exists k: nat :: InPlace(rs, Spot(pos, looked), k) && k != old(matched)
      ensures ok ==> InPlace(rs, Spot(pos, looked), i) && old(matched) < i < |rs|
    {
      hide Shift;
      i := next;
      met := met + [Spot(pos, looked)];
      forall k: nat | InPlace(rs, Spot(pos, looked), k) ensures k == next {
        AheadIsNext(k);
      }
      if i >= |starts| || i == matched || pos < starts[i] || pos > starts[i] + rs[i].size { return 0, false; }
      assert InPlace(rs, Spot(pos, looked), i);
      matched := i;
      ok := true;
    }
  }

  // ---- Runs -------------------------------------------------------------------

  /** Region bytes before virtual offset v, among the first k regions. */
  function BytesBefore(rs: seq<Region>, k: nat, v: nat): nat
    requires k <= |rs|
  {
    if k == 0 then 0
    else
      BytesBefore(rs, k - 1, v) +
      if v <= Start(rs, k - 1) then 0 else Min(v - Start(rs, k - 1), rs[k - 1].size)
  }

  /** The recipe reader is always at pos minus the region bytes before pos. */
  lemma {:induction false} RecipePosition(r: Reader)
    requires r.Valid()
    ensures r.recipePos == r.pos - BytesBefore(r.rs, |r.rs|, r.pos)
  {
    PassedBytes(r.rs, r.next, r.pos);
    if r.next < |r.rs| {
      forall j | r.next < j < |r.rs| ensures r.pos <= Start(r.rs, j) { EndsBeforeLater(r.rs, r.next, j); }
      LaterBytes(r.rs, r.next + 1, |r.rs|, r.pos);
    }
  }

  lemma {:induction false} PassedBytes(rs: seq<Region>, k: nat, v: nat)
    requires k <= |rs| && forall i :: 0 <= i < k ==> End(rs, i) <= v
    ensures BytesBefore(rs, k, v) == Shift(rs, k)
  {
    if k > 0 {
      assert End(rs, k - 1) <= v;
      PassedBytes(rs, k - 1, v);
    }
  }

  lemma {:induction false} LaterBytes(rs: seq<Region>, k: nat, n: nat, v: nat)
    requires k <= n <= |rs| && forall j :: k <= j < n ==> v <= Start(rs, j)
    ensures BytesBefore(rs, n, v) == BytesBefore(rs, k, v)
    decreases n - k
  {
    if k < n {
      assert v <= Start(rs, n - 1);
      LaterBytes(rs, k, n - 1, v);
    }
  }

  /** Reads alone, however short each of them is, hand out the spliced archive from
      the beginning, and all of it once they have reported the end. */
  method ReadThrough(r: Reader, calls: seq<(nat, Io)>) returns (out: seq<Byte>, eof: bool)
    requires r.Valid() && r.pos == 0 && r.touched == {} && Complete(r.rs, r.recipe, r.contents)
    modifies r
    ensures r.Valid() && out <= Spliced(r.rs, r.recipe, r.contents, 0, 0)
    ensures eof ==> out == Spliced(r.rs, r.recipe, r.contents, 0, 0)
  {
    hide Reader.Valid, Reader.Served, Reader.Total, Spliced, Complete;
    ghost var archive := Spliced(r.rs, r.recipe, r.contents, 0, 0);
    ArchiveLength(r);
    out := [];
    for i := 0 to |calls|
      invariant r.Valid() && r.touched == {} && r.pos == |out|
      invariant |out| <= |archive| && out == archive[..|out|]
    {
      ghost var p0 := r.pos;
      var b, err := r.Read(calls[i].0, calls[i].1);
      ChunkIsSpliced(r, p0, b);
      assert archive[..p0] + archive[p0..p0 + |b|] == archive[..p0 + |b|];
      out := out + b;
      if err == Eof { return out, true; }
      if err == StoreError { return out, false; }
    }
    return out, false;
  }

  /** A reader below that never fails and always gives something: reading on until
      the end is reported yields the archive, whole. */
  method ReadAll(r: Reader, n: nat, gives: nat) returns (out: seq<Byte>)
    requires r.Valid() && r.pos == 0 && r.touched == {} && Complete(r.rs, r.recipe, r.contents) && n > 0 && gives > 0
    modifies r
    ensures r.Valid() && out == Spliced(r.rs, r.recipe, r.contents, 0, 0)
  {
    hide Reader.Valid, Reader.Served, Reader.Total, Spliced, Complete;
    ghost var archive := Spliced(r.rs, r.recipe, r.contents, 0, 0);
    ArchiveLength(r);
    out := [];
    var err := NoError;
    while err == NoError
      invariant r.Valid() && r.touched == {} && r.pos == |out|
      invariant |out| <= |archive| && out == archive[..|out|]
      invariant err != NoError ==> r.pos >= r.Total()
      decreases |archive| - |out|, if err == NoError then 1 else 0
    {
      ghost var p0 := r.pos;
      var b;
      b, err := r.Read(n, Io(gives, false));
      ChunkIsSpliced(r, p0, b);
      assert archive[..p0] + archive[p0..p0 + |b|] == archive[..p0 + |b|];
      out := out + b;
    }
  }

  lemma {:induction false} ArchiveLength(r: Reader)
    requires Complete(r.rs, r.recipe, r.contents)
    ensures |Spliced(r.rs, r.recipe, r.contents, 0, 0)| == r.Total() && r.Whole()
  {
    SplicedLength(r.rs, r.recipe, r.contents, 0, 0);
  }

  lemma {:induction false} ChunkIsSpliced(r: Reader, p0: nat, b: seq<Byte>)
    requires Complete(r.rs, r.recipe, r.contents) && r.touched == {}
    requires forall j :: 0 <= j < |b| ==> r.Served(p0 + j, b[j])
    requires p0 <= |Spliced(r.rs, r.recipe, r.contents, 0, 0)|
    ensures p0 + |b| <= |Spliced(r.rs, r.recipe, r.contents, 0, 0)|
    ensures b == Spliced(r.rs, r.recipe, r.contents, 0, 0)[p0..p0 + |b|]
  {
    hide Locate, Spliced, Complete;
    var archive := Spliced(r.rs, r.recipe, r.contents, 0, 0);
    forall j | 0 <= j < |b| ensures p0 + j < |archive| && b[j] == archive[p0 + j] {
      assert r.Served(p0 + j, b[j]);
      ServedIsSpliced(r.rs, r.recipe, r.contents, p0 + j);
    }
    if |b| > 0 {
      var last := |b| - 1;
      assert r.Served(p0 + last, b[last]);
      ServedIsSpliced(r.rs, r.recipe, r.contents, p0 + last);
    }
  }

  lemma {:induction false} SplicedLength(rs: seq<Region>, recipe: seq<Byte>, contents: seq<seq<Byte>>, i: nat, o: nat)
    requires Complete(rs, recipe, contents) && i <= |rs| && o <= |recipe| && (i < |rs| ==> o <= rs[i].offset)
    ensures |Spliced(rs, recipe, contents, i, o)| + o + Shift(rs, i) == |recipe| + Shift(rs, |rs|)
    decreases |rs| - i
  {
    if i < |rs| {
      var a, rest := recipe[o..rs[i].offset], Spliced(rs, recipe, contents, i + 1, rs[i].offset);
      SplicedLength(rs, recipe, contents, i + 1, rs[i].offset);
      ShiftStep(rs, i);
      assert |a| == rs[i].offset - o && |contents[i]| == rs[i].size;
      assert |Spliced(rs, recipe, contents, i, o)| == |a| + |contents[i]| + |rest|;
    } else {
      assert Spliced(rs, recipe, contents, i, o) == recipe[o..];
    }
  }

  lemma {:induction false} LocateBounds(rs: seq<Region>, i: nat, v: nat, n: nat)
    requires i <= |rs| && (Locate(rs, i, v).InRegion? || Locate(rs, i, v).at < n)
    requires Sorted(rs) && forall k :: 0 <= k < |rs| ==> rs[k].offset <= n
    ensures v < n + Shift(rs, |rs|)
    decreases |rs| - i
  {
    if i == |rs| || v < Start(rs, i) {
      ShiftGrows(rs, i, |rs|);
    } else if v < End(rs, i) {
      ShiftGrows(rs, i + 1, |rs|);
    } else {
      LocateBounds(rs, i + 1, v, n);
    }
  }

  lemma {:induction false} ShiftGrows(rs: seq<Region>, i: nat, k: nat)
    requires i <= k <= |rs|
    ensures Shift(rs, i) <= Shift(rs, k)
  {
    if i < k { ShiftGrows(rs, i, k - 1); }
  }

  lemma {:induction false} ServedIsSpliced(rs: seq<Region>, recipe: seq<Byte>, contents: seq<seq<Byte>>, v: nat)
    requires Complete(rs, recipe, contents)
    requires var p := Locate(rs, 0, v); p.InRegion? || 0 <= p.at < |recipe|
    ensures v < |Spliced(rs, recipe, contents, 0, 0)|
    ensures var p := Locate(rs, 0, v);
      && (p.InRegion? ==> p.region < |contents| && 0 <= p.at < |contents[p.region]|)
      && Spliced(rs, recipe, contents, 0, 0)[v] == ByteAt(recipe, contents, p)
  {
    SplicedLength(rs, recipe, contents, 0, 0);
    LocateBounds(rs, 0, v, |recipe|);
    LocateIsSplice(rs, recipe, contents, 0, 0, v);
  }
}
