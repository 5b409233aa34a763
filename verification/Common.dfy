/** Values shared by every part of the model. */
module Common {

  /** A value that may be missing, as `undefined` and `null` are in the program. */
  datatype Option<+T> = None | Some(value: T)

  lemma SubsetSize<T>(a: set<T>, b: set<T>)
    requires a <= b
    ensures |a| <= |b|
  {
    assert b == a + (b - a);
  }
}
