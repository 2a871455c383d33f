/** Shared by the models: a value that may be missing, words and bytes, sizes of sets. */
module Wrappers {
  datatype Option<T> = None | Some(value: T)

  const TWO_32: nat := 0x1_0000_0000

  type Byte = x: int | 0 <= x < 256

  lemma {:induction false} SubsetSize<T>(a: set<T>, b: set<T>)
    requires a <= b
    ensures |a| <= |b|
  {
    assert b == a + (b - a);
  }
}
