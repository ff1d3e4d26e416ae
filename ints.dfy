/** Fixed-width integers of Java and C#: `byte`, `int`, and `int` and `long` arithmetic that wraps around. */
module Ints {
  newtype Byte = x: int | 0 <= x < 0x100
  newtype Int32 = x: int | -0x8000_0000 <= x < 0x8000_0000
  const IntMax: Int32 := 0x7fff_ffff

  /** `int` addition (unchecked in C#), which wraps around modulo 2^32. */
  function Wrap32(x: int): (r: int)
    ensures -0x8000_0000 <= r < 0x8000_0000
    ensures (r - x) % 0x1_0000_0000 == 0
  {
    (x + 0x8000_0000) % 0x1_0000_0000 - 0x8000_0000
  }

  lemma Wrap32InRange(x: int)
    requires -0x8000_0000 <= x < 0x8000_0000
    ensures Wrap32(x) == x
  {
  }

  /** `long` arithmetic (unchecked in C#), which wraps around modulo 2^64. */
  function Wrap64(x: int): (r: int)
    ensures -0x8000_0000_0000_0000 <= r < 0x8000_0000_0000_0000
    ensures (r - x) % 0x1_0000_0000_0000_0000 == 0
  {
    (x + 0x8000_0000_0000_0000) % 0x1_0000_0000_0000_0000 - 0x8000_0000_0000_0000
  }

  /** A value that fits in a `long` does not wrap. */
  lemma Wrap64InRange(x: int)
    requires -0x8000_0000_0000_0000 <= x < 0x8000_0000_0000_0000
    ensures Wrap64(x) == x
  {
  }

  /** A value less than the least `long` but not by more than 2^64 wraps once, to a value 2^64 higher. */
  lemma Wrap64Below(x: int)
    requires -0x8000_0000_0000_0000 - 0x1_0000_0000_0000_0000 <= x < -0x8000_0000_0000_0000
    ensures Wrap64(x) == x + 0x1_0000_0000_0000_0000
  {
  }
}
