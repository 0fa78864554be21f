/** What several models share. */
module Basics {
  datatype Option<T> = None | Some(value: T)

  type Byte = x: nat | x < 256

  /** A setting read with `getInt`. */
  type Int32 = x: int | -0x8000_0000 <= x < 0x8000_0000

  lemma MulMonotone(a: nat, b: nat, c: nat, d: nat)
    requires a <= b && c <= d
    ensures 0 <= a * c <= b * d
  {
    assert b * d - a * c == b * (d - c) + (b - a) * c;
  }
}
