/** Small types shared by the modules of the model. */
module Options {
  /** The optional value used in place of Python's None. */
  datatype Option<+T> = None | Some(value: T)
}

module Bytes {
  type byte = b: int | 0 <= b < 256
}

module Sets {
  lemma SubsetSize<T>(a: set<T>, b: set<T>)
    requires a <= b
    ensures |a| <= |b|
  {
    assert b == a + (b - a);
  }
}
