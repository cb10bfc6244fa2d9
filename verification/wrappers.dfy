/** What the other modules share: an optional value, a transaction's name, and how sets compare in size. */
module Wrappers {
  datatype Option<+T> = None | Some(value: T)

  /** A transaction's name: the hash of its bytes, in lower-case hexadecimal. */
  type TxID = string

  lemma SubsetSize<T>(a: set<T>, b: set<T>)
    requires a <= b
    ensures |a| <= |b|
  {
    if a != {} {
      var x :| x in a;
      SubsetSize(a - {x}, b - {x});
    }
  }
}
