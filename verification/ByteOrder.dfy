/** Bytewise string order and the sorted keys of a set of names. */
module ByteOrder {
  predicate Less(a: string, b: string) {
    if b == "" then false
    else if a == "" then true
    else a[0] < b[0] || (a[0] == b[0] && Less(a[1..], b[1..]))
  }

  lemma {:induction false} LessTotal(a: string, b: string)
    ensures a == b || Less(a, b) || Less(b, a)
  {
    if a != "" && b != "" && a[0] == b[0] {
      LessTotal(a[1..], b[1..]);
      assert a == [a[0]] + a[1..] && b == [b[0]] + b[1..];
    }
  }

  lemma {:induction false} LessTransitive(a: string, b: string, c: string)
    requires Less(a, b) && Less(b, c)
    ensures Less(a, c)
  {
    if a != "" && a[0] == b[0] == c[0] { LessTransitive(a[1..], b[1..], c[1..]); }
  }

  lemma {:induction false} LessIrreflexive(a: string)
    ensures !Less(a, a)
  {
    if a != "" { LessIrreflexive(a[1..]); }
  }

  /** The first position where two strings differ decides, or that one of them ends
      there. */
  ghost predicate FirstDiffers(a: string, b: string, i: nat) {
    && i <= |a| && i < |b| && a[..i] == b[..i]
    && (i == |a| || a[i] < b[i])
  }

  lemma {:induction false} LessByFirstDifference(a: string, b: string)
    ensures Less(a, b) <==> exists i: nat :: FirstDiffers(a, b, i)
  {
    if a == "" || b == "" || a[0] != b[0] {
      if b != "" && (a == "" || a[0] < b[0]) { assert FirstDiffers(a, b, 0); }
      if i: nat :| FirstDiffers(a, b, i) && i > 0 { assert a[..i][0] == b[..i][0]; }
    } else {
      LessByFirstDifference(a[1..], b[1..]);
      if i: nat :| FirstDiffers(a[1..], b[1..], i) {
        assert a[..i + 1] == [a[0]] + a[1..][..i] && b[..i + 1] == [b[0]] + b[1..][..i];
        assert FirstDiffers(a, b, i + 1);
      }
      if i: nat :| FirstDiffers(a, b, i) {
        assert i > 0;
        assert a[1..][..i - 1] == a[..i][1..] && b[1..][..i - 1] == b[..i][1..];
        assert FirstDiffers(a[1..], b[1..], i - 1);
      }
    }
  }

  ghost predicate Increasing(names: seq<string>) {
    forall i, j :: 0 <= i < j < |names| ==> Less(names[i], names[j])
  }

  method Least(s: set<string>) returns (m: string)
    requires s != {}
    ensures m in s && forall x :: x in s ==> x == m || Less(m, x)
  {
    m :| m in s;
    var rest := s - {m};
    while rest != {}
      invariant m in s && rest <= s
      invariant forall x :: x in s - rest ==> x == m || Less(m, x)
      decreases rest
    {
      var y :| y in rest;
      LessTotal(m, y);
      if Less(y, m) {
        forall x | x in s - rest ensures x == y || Less(y, x) {
          if x != m { LessTransitive(y, m, x); }
        }
        m := y;
      }
      rest := rest - {y};
    }
  }

  /** slices.Sorted(maps.Keys(m)) */
  method SortedNames(s: set<string>) returns (names: seq<string>)
    ensures Increasing(names)
    ensures forall x :: x in names <==> x in s
  {
    names := [];
    var rest := s;
    while rest != {}
      invariant rest <= s && Increasing(names)
      invariant forall x :: x in s <==> x in names || x in rest
      invariant forall i, x :: 0 <= i < |names| && x in rest ==> Less(names[i], x)
      decreases rest
    {
      var m := Least(rest);
      names := names + [m];
      rest := rest - {m};
    }
  }
}
