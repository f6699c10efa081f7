/** Fixed-width integer conversions of the source language (64-bit platform). */
module GoIntegers {

  const TWO_63: int := 0x8000_0000_0000_0000
  const TWO_64: int := 0x1_0000_0000_0000_0000

  newtype byte = n: int | 0 <= n < 256

  /** The int64 that a mathematical integer wraps to. */
  function WrapInt64(x: int): int {
    (x + TWO_63) % TWO_64 - TWO_63
  }

  /** Conversion to uint64, also of a negative int64. */
  function ToUint64(x: int): nat {
    x % TWO_64
  }

  /** How often `for i := 0; i < int(u); i++` runs: a count past the int range turns negative and runs it never. */
  function LoopCount(u: nat): nat {
    var n := WrapInt64(u);
    if n < 0 then 0 else n
  }

  lemma LoopCountExact(u: nat)
    requires u < TWO_64
    ensures LoopCount(u) == if u < TWO_63 then u else 0
  {
  }

  /** Incrementing a wrapped counter is wrapping the incremented counter. */
  lemma WrapSuccessor(x: int)
    ensures WrapInt64(WrapInt64(x) + 1) == WrapInt64(x + 1)
    ensures ToUint64(WrapInt64(x)) == ToUint64(x)
  {
  }
}
