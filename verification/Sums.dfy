/** Content keys and sums of their sizes over sets, bags and sequences. */
module Sums {
  /** An object's key. Content addressing fixes the payload length and the
      bytes the object takes in a segment, record header included. */
  datatype Key = Key(hash: nat, ulen: nat, disk: nat)

  function Ulen(k: Key): nat { k.ulen }

  function Disk(k: Key): nat { k.disk }

  ghost function OverSet<T(!new)>(s: set<T>, z: T -> nat): nat
    decreases |s|
  {
    if s == {} then 0 else var x :| x in s; z(x) + OverSet(s - {x}, z)
  }

  lemma {:induction false} OverSetAdd<T(!new)>(s: set<T>, x: T, z: T -> nat)
    requires x !in s
    ensures OverSet(s + {x}, z) == OverSet(s, z) + z(x)
    decreases |s|
  {
    var t := s + {x};
    var y :| y in t && OverSet(t, z) == z(y) + OverSet(t - {y}, z);
    if y == x {
      assert t - {y} == s;
    } else {
      assert t - {y} == (s - {y}) + {x};
      OverSetAdd(s - {y}, x, z);
      OverSetAdd(s - {y}, y, z);
      assert (s - {y}) + {y} == s;
    }
  }

  ghost function OverSeq(s: seq<Key>, z: Key -> nat): nat {
    if s == [] then 0 else OverSeq(s[..|s| - 1], z) + z(s[|s| - 1])
  }

  lemma {:induction false} OverSeqAdd(s: seq<Key>, x: Key, z: Key -> nat)
    ensures OverSeq(s + [x], z) == OverSeq(s, z) + z(x)
  {
    assert (s + [x])[..|s|] == s;
  }

  lemma {:induction false} OverSeqJoin(a: seq<Key>, b: seq<Key>, z: Key -> nat)
    ensures OverSeq(a + b, z) == OverSeq(a, z) + OverSeq(b, z)
  {
    if b == [] {
      assert a + b == a;
    } else {
      var init, x := b[..|b| - 1], b[|b| - 1];
      OverSeqJoin(a, init, z);
      assert a + b == (a + init) + [x];
      OverSeqAdd(a + init, x, z);
    }
  }

  /** Taking out one element takes out its size. */
  lemma {:induction false} OverSeqWithout(s: seq<Key>, i: nat, z: Key -> nat)
    requires i < |s|
    ensures OverSeq(s, z) == OverSeq(s[..i] + s[i + 1..], z) + z(s[i])
  {
    hide OverSeq;
    assert s == (s[..i] + [s[i]]) + s[i + 1..];
    OverSeqJoin(s[..i] + [s[i]], s[i + 1..], z);
    OverSeqAdd(s[..i], s[i], z);
    OverSeqJoin(s[..i], s[i + 1..], z);
  }

  lemma {:induction false} JoinBags(a: seq<Key>, b: seq<Key>)
    ensures multiset(a + b) == multiset(a) + multiset(b)
  {
  }

  lemma {:induction false} Cancel(p: multiset<Key>, q: multiset<Key>, c: multiset<Key>)
    requires p + c == q + c
    ensures p == q
  {
    assert p == (p + c) - c && q == (q + c) - c;
  }

  lemma {:induction false} Without(a: seq<Key>, b: seq<Key>, i: nat)
    requires a != [] && i < |b| && b[i] == a[|a| - 1] && multiset(a) == multiset(b)
    ensures multiset(a[..|a| - 1]) == multiset(b[..i] + b[i + 1..])
  {
    var init, x, head, tail := a[..|a| - 1], [b[i]], b[..i], b[i + 1..];
    assert a == init + x && b == (head + x) + tail;
    JoinBags(init, x);
    JoinBags(head, x);
    JoinBags(head + x, tail);
    JoinBags(head, tail);
    assert multiset(head + tail) + multiset(x) == multiset(b);
    Cancel(multiset(init), multiset(head + tail), multiset(x));
  }

  /** The order of a sequence does not matter to its sum. */
  lemma {:induction false} OverSeqIgnoresOrder(a: seq<Key>, b: seq<Key>, z: Key -> nat)
    requires multiset(a) == multiset(b)
    ensures OverSeq(a, z) == OverSeq(b, z)
  {
    if a == [] {
      assert |multiset(b)| == 0;
    } else {
      var x := a[|a| - 1];
      assert x in multiset(b);
      var i :| 0 <= i < |b| && b[i] == x;
      Without(a, b, i);
      OverSeqIgnoresOrder(a[..|a| - 1], b[..i] + b[i + 1..], z);
      OverSeqWithout(b, i, z);
    }
  }
}
