/** Small vocabulary shared by the components. */
module Basics {

  datatype Option<+T> = None | Some(value: T)

  type byte = x: int | 0 <= x < 256

  function Min(a: nat, b: nat): (m: nat)
    ensures m <= a && m <= b && (m == a || m == b)
  {
    if a <= b then a else b
  }

  /** The number eight bits stand for. */
  function Num(b: bv8): (n: byte) { b as int }

  lemma ByteAsBits(x: byte)
    ensures x as bv8 as int == x
  {
    assert x % 256 == x;
  }
}
