/** The loop of parseLayer (rootfs/layer.go): archive/tar drives the splice with
    reads and forward seeks of its own choosing, and every header that carries
    content is paired with an index entry through RegionAt. */
module LayerParse {
  import PathMap
  import Merge
  import opened Splice
  import opened LayerEntries
  import opened Builder

  type Key = PathMap.Key

  /** One call archive/tar makes on the splice. */
  datatype Call = ReadCall(n: nat, io: Io) | SeekCall(offset: nat, ios: seq<Io>)

  /** What one tar.Reader.Next comes to, after some calls on the splice. */
  datatype TarNext =
    | NextHeader(calls: seq<Call>, hdr: Header)
    | NextGlobal(calls: seq<Call>)
    | NextError(calls: seq<Call>)

  predicate HasContent(flag: Flag) {
    flag.Reg? || flag.Cont? || flag.GnuSparse?
  }

  /** The headers that become entries. */
  function Headers(script: seq<TarNext>): seq<Header> {
    if script == [] then []
    else
      var last := script[|script| - 1];
      Headers(script[..|script| - 1]) + if last.NextHeader? then [last.hdr] else []
  }

  function ContentCount(hs: seq<Header>): nat {
    if hs == [] then 0
    else ContentCount(hs[..|hs| - 1]) + if HasContent(hs[|hs| - 1].flag) then 1 else 0
  }

  /** The i-th header with content gets the i-th key. */
  function Paired(hs: seq<Header>, keys: seq<Key>): seq<Merge.Entry>
    requires |keys| == ContentCount(hs)
  {
    if hs == [] then []
    else
      var init, h := hs[..|hs| - 1], hs[|hs| - 1];
      if HasContent(h.flag) then Paired(init, keys[..|keys| - 1]) + [Convert(h, keys[|keys| - 1])]
      else Paired(init, keys) + [Convert(h, 0)]
  }

  /** One step of the loop, as the specification sees it. */
  lemma {:induction false} ParseNext(script: seq<TarNext>, i: nat, used: seq<Key>, key: Key)
    requires i < |script| && |used| == ContentCount(Headers(script[..i]))
    ensures
      var hs, next := Headers(script[..i]), Headers(script[..i + 1]);
      if !script[i].NextHeader? then next == hs
      else if HasContent(script[i].hdr.flag) then
        && ContentCount(next) == ContentCount(hs) + 1
        && Paired(next, used + [key]) == Paired(hs, used) + [Convert(script[i].hdr, key)]
      else
        ContentCount(next) == ContentCount(hs) && Paired(next, used) == Paired(hs, used) + [Convert(script[i].hdr, 0)]
  {
    hide Convert;
    assert script[..i + 1][..i] == script[..i];
    var hs := Headers(script[..i]);
    if script[i].NextHeader? {
      assert (hs + [script[i].hdr])[..|hs|] == hs;
      assert (used + [key])[..|used|] == used;
    }
  }

  method Perform(s: Reader, calls: seq<Call>)
    requires s.Valid()
    modifies s`pos, s`next, s`content, s`zeros, s`recipePos, s`touched, s`looked
    ensures s.Valid()
  {
    hide Reader.Valid;
    for i := 0 to |calls|
      invariant s.Valid()
    {
      match calls[i] {
        case ReadCall(n, io) => var _, _ := s.Read(n, io);
        case SeekCall(offset, ios) => var _ := s.Seek(offset, ios);
      }
    }
  }

  /** Strictly increasing indices that fill a range are the range itself. */
  lemma {:induction false} IncreasingFills(idx: seq<nat>, n: nat, i: nat)
    requires |idx| == n && i < n
    requires forall a, b :: 0 <= a < b < n ==> idx[a] < idx[b]
    requires forall a :: 0 <= a < n ==> idx[a] < n
    ensures idx[i] == i
  {
    AtLeast(idx, i);
    AtMost(idx, n, n - 1 - i);
  }

  lemma {:induction false} AtLeast(idx: seq<nat>, i: nat)
    requires i < |idx| && forall a, b :: 0 <= a < b < |idx| ==> idx[a] < idx[b]
    ensures idx[i] >= i
  {
    if i > 0 { AtLeast(idx, i - 1); }
  }

  lemma {:induction false} AtMost(idx: seq<nat>, n: nat, back: nat)
    requires |idx| == n && back < n && forall a, b :: 0 <= a < b < n ==> idx[a] < idx[b]
    requires forall a :: 0 <= a < n ==> idx[a] < n
    ensures idx[n - 1 - back] <= n - 1 - back
  {
    if back > 0 { AtMost(idx, n, back - 1); }
  }

  /** The indices handed out so far increase, the last one is matched, and each is the
      region its header was met in. */
  ghost predicate Handed(idx: seq<nat>, used: seq<Key>, keys: seq<Key>, rs: seq<Region>, met: seq<Spot>, matched: int) {
    && |idx| == |used| == |met| && |keys| == |rs|
    && matched == (if idx == [] then -1 else idx[|idx| - 1])
    && (forall a :: 0 <= a < |idx| ==> idx[a] < |keys| && used[a] == keys[idx[a]] && InPlace(rs, met[a], idx[a]))
    && (forall a, b :: 0 <= a < b < |idx| ==> idx[a] < idx[b])
  }

  /** The k-th header with content was met in region k. */
  ghost predicate AllInPlace(rs: seq<Region>, met: seq<Spot>) {
    forall k :: 0 <= k < |met| ==> InPlace(rs, met[k], k)
  }

  lemma {:induction false} InPlaceFills(idx: seq<nat>, used: seq<Key>, keys: seq<Key>, rs: seq<Region>, met: seq<Spot>,
      matched: int)
    requires Handed(idx, used, keys, rs, met, matched) && |idx| == |keys|
    ensures used == keys && AllInPlace(rs, met)
  {
    hide InPlace;
    forall a | 0 <= a < |idx| ensures used[a] == keys[a] && InPlace(rs, met[a], a) {
      IncreasingFills(idx, |keys|, a);
    }
  }

  ghost predicate NoTarError(script: seq<TarNext>) {
    forall i :: 0 <= i < |script| ==> !script[i].NextError?
  }

  /** Reads every header of a layer. It succeeds exactly when archive/tar does not
      fail, there are as many headers with content as index entries, and the i-th of
      them was met in region i, zero-length files included; then that header is paired
      with index entry i. */
  method ParseLayer(s: Reader, script: seq<TarNext>, keys: seq<Key>) returns (r: Parsed)
    requires s.Valid() && s.matched == -1 && s.met == [] && |keys| == |s.rs|
    modifies s
    ensures r.Entries? <==>
      NoTarError(script) && ContentCount(Headers(script)) == |keys| && AllInPlace(s.rs, s.met)
    ensures r.Entries? ==> r.entries == Paired(Headers(script), keys) && |s.met| == |keys|
  {
    hide Reader.Valid, Headers, ContentCount, Paired, Handed, AllInPlace;
    var ok, entries, consumed, idx, used := ParseHeaders(s, script, keys);
    if !ok || consumed != |s.rs| { return Malformed; }
    HandedSizes(idx, used, keys, s.rs, s.met, s.matched);
    InPlaceFills(idx, used, keys, s.rs, s.met, s.matched);
    return Entries(entries);
  }

  /** The loop over the headers. */
  method ParseHeaders(s: Reader, script: seq<TarNext>, keys: seq<Key>)
    returns (ok: bool, entries: seq<Merge.Entry>, consumed: nat, ghost idx: seq<nat>, ghost used: seq<Key>)
    requires s.Valid() && s.matched == -1 && s.met == [] && |keys| == |s.rs|
    modifies s
    ensures !ok ==> !NoTarError(script) || !AllInPlace(s.rs, s.met)
    ensures ok ==>
      && NoTarError(script) && Handed(idx, used, keys, s.rs, s.met, s.matched)
      && consumed == |used| == ContentCount(Headers(script)) && entries == Paired(Headers(script), used)
  {
    hide *;
    ok, entries, consumed, idx, used := true, [], 0, [], [];
    NothingParsed(script);
    NothingHanded(keys, s.rs);
    for i := 0 to |script|
      invariant s.Valid() && Handed(idx, used, keys, s.rs, s.met, s.matched)
      invariant Progress(script, i, entries, consumed, used)
    {
      Perform(s, script[i].calls);
      ProgressNext(script, i, entries, consumed, used, 0);
      if script[i].NextError? {
        ok := false;
        return;
      }
      if script[i].NextHeader? {
        var content := 0;
        if HasContent(script[i].hdr.flag) {
          ok, content, idx := TakeContent(s, keys, idx, used);
          if !ok { return; }
          ProgressNext(script, i, entries, consumed, used, content);
          consumed := consumed + 1;
          used := used + [content];
        }
        entries := entries + [Convert(script[i].hdr, content)];
      }
    }
    AllParsed(script, entries, consumed, used);
    ok := true;
  }

  /** What the loop has after i headers. */
  ghost predicate Progress(script: seq<TarNext>, i: nat, entries: seq<Merge.Entry>, consumed: nat, used: seq<Key>) {
    && i <= |script| && (forall k :: 0 <= k < i ==> !script[k].NextError?)
    && consumed == |used| == ContentCount(Headers(script[..i]))
    && entries == Paired(Headers(script[..i]), used)
  }

  lemma {:induction false} ProgressNext(script: seq<TarNext>, i: nat, entries: seq<Merge.Entry>, consumed: nat,
      used: seq<Key>, key: Key)
    requires i < |script| && Progress(script, i, entries, consumed, used)
    ensures
      match script[i]
      case NextError(_) => !NoTarError(script)
      case NextGlobal(_) => Progress(script, i + 1, entries, consumed, used)
      case NextHeader(_, h) =>
        if HasContent(h.flag) then
          Progress(script, i + 1, entries + [Convert(h, key)], consumed + 1, used + [key])
        else Progress(script, i + 1, entries + [Convert(h, 0)], consumed, used)
  {
    ParseNext(script, i, used, key);
    hide Convert, Headers, ContentCount, Paired, HasContent;
  }

  lemma {:induction false} AllParsed(script: seq<TarNext>, entries: seq<Merge.Entry>, consumed: nat, used: seq<Key>)
    requires Progress(script, |script|, entries, consumed, used)
    ensures NoTarError(script) && consumed == |used| == ContentCount(Headers(script))
    ensures entries == Paired(Headers(script), used)
  {
    assert script[..|script|] == script;
  }

  /** The content of the header just met, if it is in its region. */
  method TakeContent(s: Reader, keys: seq<Key>, ghost idx: seq<nat>, ghost used: seq<Key>)
    returns (ok: bool, content: Key, ghost idx': seq<nat>)
    requires s.Valid() && Handed(idx, used, keys, s.rs, s.met, s.matched)
    modifies s`matched, s`met
    ensures s.Valid()
    ensures ok ==> Handed(idx', used + [content], keys, s.rs, s.met, s.matched)
    ensures !ok ==> !AllInPlace(s.rs, s.met)
  {
    hide Reader.Valid, Handed, AllInPlace, Ahead;
    ghost var met, matched, here := s.met, s.matched, Spot(s.pos, s.looked);
    var j;
    j, ok := s.RegionAt();
    idx' := idx + [j];
    if !ok {
      NotInPlace(idx, used, keys, s.rs, met, matched, here);
      return false, 0, idx';
    }
    HandedSizes(idx, used, keys, s.rs, met, matched);
    content := keys[j];
    HandedNext(idx, used, keys, s.rs, met, matched, here, j);
  }

  lemma {:induction false} HandedSizes(idx: seq<nat>, used: seq<Key>, keys: seq<Key>, rs: seq<Region>, met: seq<Spot>,
      matched: int)
    requires Handed(idx, used, keys, rs, met, matched)
    ensures |idx| == |used| == |met| && |keys| == |rs|
  {
  }

  lemma {:induction false} NothingHanded(keys: seq<Key>, rs: seq<Region>)
    requires |keys| == |rs|
    ensures Handed([], [], keys, rs, [], -1)
  {
  }

  lemma {:induction false} HandedNext(idx: seq<nat>, used: seq<Key>, keys: seq<Key>, rs: seq<Region>, met: seq<Spot>,
      matched: int, here: Spot, j: nat)
    requires Handed(idx, used, keys, rs, met, matched) && matched < j < |keys| && InPlace(rs, here, j)
    ensures Handed(idx + [j], used + [keys[j]], keys, rs, met + [here], j)
  {
    hide InPlace;
  }

  /** A header that gets no region was not met in its own, unless one before it was
      not. */
  lemma {:induction false} NotInPlace(idx: seq<nat>, used: seq<Key>, keys: seq<Key>, rs: seq<Region>, met: seq<Spot>,
      matched: int, here: Spot)
    requires Handed(idx, used, keys, rs, met, matched)
    requires !exists k: nat :: InPlace(rs, here, k) && k != matched
    ensures !AllInPlace(rs, met + [here])
  {
    var n := |idx|;
    assert (met + [here])[n] == here;
    if InPlace(rs, here, n) && n > 0 {
      assert (met + [here])[n - 1] == met[n - 1] && InPlace(rs, met[n - 1], idx[n - 1]);
    }
  }

  lemma {:induction false} NothingParsed(script: seq<TarNext>)
    ensures Progress(script, 0, [], 0, [])
  {
    assert script[..0] == [];
  }

  ghost predicate NulFree(hs: seq<Header>) {
    forall i :: 0 <= i < |hs| ==> NoNul(hs[i].name) && NoNul(hs[i].linkname)
  }

  /** The entries a parse yields have legal names. */
  lemma {:induction false} PairedIsLegal(hs: seq<Header>, keys: seq<Key>)
    requires |keys| == ContentCount(hs) && NulFree(hs)
    ensures LegalEntries(Paired(hs, keys))
  {
    hide Convert, LegalEntry, HasContent;
    if hs != [] {
      var init, h := hs[..|hs| - 1], hs[|hs| - 1];
      if HasContent(h.flag) {
        PairedIsLegal(init, keys[..|keys| - 1]);
        ConvertIsLegal(h, keys[|keys| - 1]);
      } else {
        PairedIsLegal(init, keys);
        ConvertIsLegal(h, 0);
      }
    }
  }

  // ---- Which header gets which key ------------------------------------------------

  /** The types with content: files of either type, and the old sparse ones. */
  ghost predicate FileType(flag: Flag) { flag == Reg || flag == Cont || flag == GnuSparse }

  /** The headers among the first n that have content. */
  ghost function ContentAt(hs: seq<Header>, n: nat): set<nat>
    requires n <= |hs|
  {
    set j: nat | j < n && FileType(hs[j].flag)
  }

  lemma {:induction false} ContentAtNext(hs: seq<Header>, n: nat)
    requires n < |hs|
    ensures |ContentAt(hs, n + 1)| == |ContentAt(hs, n)| + if HasContent(hs[n].flag) then 1 else 0
  {
    if HasContent(hs[n].flag) {
      assert ContentAt(hs, n + 1) == ContentAt(hs, n) + {n};
    } else {
      assert ContentAt(hs, n + 1) == ContentAt(hs, n);
    }
  }

  lemma {:induction false} CountIs(hs: seq<Header>, n: nat)
    requires n <= |hs|
    ensures ContentCount(hs[..n]) == |ContentAt(hs, n)|
  {
    if n > 0 {
      CountIs(hs, n - 1);
      ContentAtNext(hs, n - 1);
      assert hs[..n][..n - 1] == hs[..n - 1];
    } else {
      assert ContentAt(hs, 0) == {};
    }
  }

  /** Every header becomes one entry, in order; one with content gets the key whose
      number is how many with content come before it. */
  lemma {:induction false} PairedAt(hs: seq<Header>, keys: seq<Key>, i: nat)
    requires |keys| == ContentCount(hs) && i < |hs|
    ensures |Paired(hs, keys)| == |hs|
    ensures FileType(hs[i].flag) ==>
      && |ContentAt(hs, i)| < |keys| && Paired(hs, keys)[i] == Convert(hs[i], keys[|ContentAt(hs, i)|])
    ensures !FileType(hs[i].flag) ==> Paired(hs, keys)[i] == Convert(hs[i], 0)
    decreases |hs|
  {
    hide Convert;
    var last := |hs| - 1;
    var init := hs[..last];
    CountIs(hs, last);
    var used := if HasContent(hs[last].flag) then keys[..|keys| - 1] else keys;
    if i < last {
      PairedAt(init, used, i);
      assert ContentAt(init, i) == ContentAt(hs, i);
    } else if last > 0 {
      PairedAt(init, used, 0);
    }
  }

  /** The headers are those archive/tar returned, in order, the global ones left out. */
  lemma {:induction false} HeadersJoin(a: seq<TarNext>, b: seq<TarNext>)
    ensures Headers(a + b) == Headers(a) + Headers(b)
    ensures forall calls, h :: Headers([NextHeader(calls, h)]) == [h]
    ensures forall calls :: Headers([NextGlobal(calls)]) == []
  {
    if b == [] {
      assert a + b == a;
    } else {
      assert (a + b)[..|a + b| - 1] == a + b[..|b| - 1];
      HeadersJoin(a, b[..|b| - 1]);
    }
  }
}
