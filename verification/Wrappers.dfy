/** What several modules share: values that may be missing, bytes, sizes of sets. */
module Wrappers {
  datatype Option<T> = None | Some(value: T)

  type Byte = x: nat | x < 256

  lemma {:induction false} SubsetSize<T>(a: set<T>, b: set<T>)
    requires a <= b
    ensures |a| <= |b|
  {
    if a != {} {
      var x :| x in a;
      SubsetSize(a - {x}, b - {x});
    }
  }
}
