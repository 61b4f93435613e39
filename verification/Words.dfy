/** Machine words.  Integers in Dafny are unbounded, so every place where the kernel
    relies on unsigned wrap-around goes through `U32` or `U64`, and the lemmas here say
    what a wrapped sum or difference is.  Modules that never wrap use the word types only
    as bounds. */
module Words {
  const M16: int := 0x1_0000
  const M32: int := 0x1_0000_0000
  const M64: int := 0x1_0000_0000_0000_0000

  type byte = x: int | 0 <= x < 0x100
  type u16 = x: int | 0 <= x < 0x1_0000
  type u32 = x: int | 0 <= x < 0x1_0000_0000
  type u64 = x: int | 0 <= x < 0x1_0000_0000_0000_0000

  function U32(x: int): u32 {
    x % 0x1_0000_0000
  }

  function U64(x: int): u64 {
    x % 0x1_0000_0000_0000_0000
  }

  /** A cleared buffer. */
  function Zeros(n: nat): (s: seq<byte>)
    ensures |s| == n && forall i :: 0 <= i < n ==> s[i] == 0
  {
    seq(n, _ => 0)
  }

  function Min(a: int, b: int): int {
    if a < b then a else b
  }

  /** The word of `x` is the one number in range that differs from `x` by whole turns. */
  lemma U32Unique(x: int, r: int, turns: int)
    requires x == r + turns * 0x1_0000_0000
    requires 0 <= r < 0x1_0000_0000
    ensures U32(x) == r
  {
  }

  /** Wrapping an already wrapped operand changes nothing. */
  lemma U32Add(x: int, y: int)
    ensures U32(U32(x) + y) == U32(x + y)
  {
    U32Unique(U32(x) + y, U32(x + y), (x + y) / M32 - x / M32);
  }

  lemma U32Sub(x: int, y: int)
    ensures U32(x - U32(y)) == U32(x - y)
  {
    U32Unique(x - U32(y), U32(x - y), (x - y) / M32 + y / M32);
  }

  /** Two integers less than 2^32 apart that wrap to the same word are equal. */
  lemma U32Injective(x: int, y: int)
    requires -M32 < x - y < M32
    requires U32(x) == U32(y)
    ensures x == y
  {
  }

  /** Words of numbers at most one turn away from the word range. */
  lemma U32Near(x: int)
    ensures 0 <= x < M32 ==> U32(x) == x
    ensures -M32 <= x < 0 ==> U32(x) == x + M32
  {
    if 0 <= x < M32 { U32Unique(x, x, 0); }
    if -M32 <= x < 0 { U32Unique(x, x + M32, -1); }
  }

  lemma U64Small(x: int)
    requires 0 <= x < M64
    ensures U64(x) == x
  {
  }
}
