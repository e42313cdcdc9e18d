/** The 32-bit sequence comparators of lab12/12-tcp_stack/include/tcp.h.

  The difference of the two casts is taken to wrap in two's complement.
*/
module SeqNumbers {
  const TWO31: int := 0x8000_0000
  const TWO32: int := 0x1_0000_0000

  type u32 = x: int | 0 <= x < 0x1_0000_0000

  /** The int32_t with the same low 32 bits. */
  function ToInt32(x: int): int {
    (x + TWO31) % TWO32 - TWO31
  }

  function Difference32(a: u32, b: u32): int {
    ToInt32(ToInt32(a) - ToInt32(b))
  }

  predicate LessOrEqual32(a: u32, b: u32) {
    Difference32(a, b) <= 0
  }

  predicate LessThan32(a: u32, b: u32) {
    Difference32(a, b) < 0
  }

  predicate GreaterOrEqual32(a: u32, b: u32) {
    Difference32(a, b) >= 0
  }

  function Truncate(x: int): u32 {
    x % TWO32
  }

  /** The comparators see the distance of two unbounded numbers, reduced to the
      range of an int32_t. */
  lemma DifferenceIsDistance(a: int, b: int)
    ensures Difference32(Truncate(a), Truncate(b)) == ToInt32(a - b)
  {
    var qa, qb := a / TWO32, b / TWO32;
    assert Truncate(a) == a - qa * TWO32 && Truncate(b) == b - qb * TWO32;
    SameResidue(Truncate(a), a, -qa);
    SameResidue(Truncate(b), b, -qb);
    var da := (ToInt32(Truncate(a)) - Truncate(a)) / TWO32;
    var db := (ToInt32(Truncate(b)) - Truncate(b)) / TWO32;
    SameResidue(ToInt32(Truncate(a)) - ToInt32(Truncate(b)), a - b, da - db - qa + qb);
  }

  lemma SameResidue(x: int, y: int, k: int)
    requires x == y + k * TWO32
    ensures ToInt32(x) == ToInt32(y)
  {
  }

  /** The comparators agree with the unbounded order on numbers less than 2^31 apart. */
  lemma ComparatorsAgree(a: int, b: int)
    requires -TWO31 < a - b < TWO31
    ensures LessOrEqual32(Truncate(a), Truncate(b)) <==> a <= b
    ensures LessThan32(Truncate(a), Truncate(b)) <==> a < b
    ensures GreaterOrEqual32(Truncate(a), Truncate(b)) <==> a >= b
  {
    DifferenceIsDistance(a, b);
  }

  /** The bound is sharp: 2^31 ahead counts as behind. */
  lemma ComparatorsTurnOver(a: int, b: int)
    requires a - b == TWO31
    ensures LessThan32(Truncate(a), Truncate(b)) && b < a
  {
    DifferenceIsDistance(a, b);
  }
}
