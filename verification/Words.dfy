/** Machine integers: the ranges of the source's types and how they wrap around. */
module Words {
  const U32_MAX := 0xFFFF_FFFF
  const U64_MAX := 0xFFFF_FFFF_FFFF_FFFF
  const I64_MAX := 0x7FFF_FFFF_FFFF_FFFF
  const I64_MIN := -0x8000_0000_0000_0000

  predicate FitsI64(x: int) { I64_MIN <= x <= I64_MAX }

  /** Two's-complement wrap-around to i64, as release builds compute and as casts from u64 do. */
  function Wrap(x: int): (r: int)
    ensures FitsI64(r)
    ensures FitsI64(x) ==> r == x
  {
    (x - I64_MIN) % 0x1_0000_0000_0000_0000 + I64_MIN
  }

  /** `k` turns of the 64-bit circle. */
  lemma WrapTurns(x: int, k: int)
    requires FitsI64(x - k * 0x1_0000_0000_0000_0000)
    ensures Wrap(x) == x - k * 0x1_0000_0000_0000_0000
  {
  }

  /** Wrapping early or late comes to the same. */
  lemma WrapAbsorbs(x: int, c: int)
    ensures Wrap(Wrap(x) + c) == Wrap(x + c)
  {
    var k, l := Turns(x), Turns(Wrap(x) + c);
    WrapTurns(x, k);
    WrapTurns(Wrap(x) + c, l);
    WrapTurns(x + c, k + l);
  }

  /** How often the circle goes round to bring `x` into range. */
  function Turns(x: int): (k: int)
    ensures FitsI64(x - k * 0x1_0000_0000_0000_0000)
  {
    (x - I64_MIN) / 0x1_0000_0000_0000_0000
  }
}
