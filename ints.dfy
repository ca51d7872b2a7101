/** Fixed-width integers of the C++ core (Int8 … UInt32 of mgtype.h and the
    32-bit `int`), with the narrowing casts written out as two's-complement
    wrap-around. */
module Ints {

  type Int8 = x: int | -0x80 <= x < 0x80
  type Int16 = x: int | -0x8000 <= x < 0x8000
  type Int32 = x: int | -0x8000_0000 <= x < 0x8000_0000
  type UInt8 = x: int | 0 <= x < 0x100
  type UInt16 = x: int | 0 <= x < 0x1_0000
  type UInt32 = x: int | 0 <= x < 0x1_0000_0000

  /** The value of `(Int8)x`: the Int8 congruent to x modulo 2^8. */
  function ToInt8(x: int): (r: Int8)
    ensures (r - x) % 0x100 == 0
  {
    (x + 0x80) % 0x100 - 0x80
  }

  /** The value of `(Int16)x`. */
  function ToInt16(x: int): (r: Int16)
    ensures (r - x) % 0x1_0000 == 0
  {
    (x + 0x8000) % 0x1_0000 - 0x8000
  }

  /** The value of `(int)x` for an unsigned 32-bit x (and of any wider value). */
  function ToInt32(x: int): (r: Int32)
    ensures (r - x) % 0x1_0000_0000 == 0
  {
    (x + 0x8000_0000) % 0x1_0000_0000 - 0x8000_0000
  }

  /** The value of `(UInt8)x`. */
  function ToUInt8(x: int): (r: UInt8)
    ensures (r - x) % 0x100 == 0
  {
    x % 0x100
  }

  /** The value of `(UInt16)x`. */
  function ToUInt16(x: int): (r: UInt16)
    ensures (r - x) % 0x1_0000 == 0
  {
    x % 0x1_0000
  }

  /** The value of `(UInt32)x`. */
  function ToUInt32(x: int): (r: UInt32)
    ensures (r - x) % 0x1_0000_0000 == 0
  {
    x % 0x1_0000_0000
  }

  /** A narrowing cast is the identity on values that already fit. */
  lemma NarrowingKeepsFittingValues(x: int)
    ensures -0x80 <= x < 0x80 ==> ToInt8(x) == x
    ensures -0x8000 <= x < 0x8000 ==> ToInt16(x) == x
    ensures -0x8000_0000 <= x < 0x8000_0000 ==> ToInt32(x) == x
    ensures 0 <= x < 0x100 ==> ToUInt8(x) == x
    ensures 0 <= x < 0x1_0000 ==> ToUInt16(x) == x
    ensures 0 <= x < 0x1_0000_0000 ==> ToUInt32(x) == x
  {
    if -0x80 <= x < 0x80 { ModOfSmall(x + 0x80, 0x100); }
    if -0x8000 <= x < 0x8000 { ModOfSmall(x + 0x8000, 0x1_0000); }
    if -0x8000_0000 <= x < 0x8000_0000 { ModOfSmall(x + 0x8000_0000, 0x1_0000_0000); }
    if 0 <= x < 0x100 { ModOfSmall(x, 0x100); }
    if 0 <= x < 0x1_0000 { ModOfSmall(x, 0x1_0000); }
    if 0 <= x < 0x1_0000_0000 { ModOfSmall(x, 0x1_0000_0000); }
  }

  /** A value already in 0 .. m-1 is its own remainder. */
  lemma ModOfSmall(v: int, m: int)
    requires 0 <= v < m
    ensures v % m == v
  {
  }

  /** Interpreting an unsigned 32-bit value as `int` and back is the identity. */
  lemma UInt32RoundTrip(u: UInt32)
    ensures ToUInt32(ToInt32(u)) == u
  {
  }
}
