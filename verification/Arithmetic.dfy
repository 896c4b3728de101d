/** Facts about products and quotients that the solver should not search for. */
module Arithmetic {
  /** One more than the largest 32-bit number. */
  const TWO32 := 0x1_0000_0000

  function Max(a: nat, b: nat): nat {
    if a < b then b else a
  }

  lemma QuotientPositive(a: nat, d: nat)
    requires d > 0
    ensures a / d > 0 <==> a >= d
  {
  }

  lemma TimesMonotone(a: nat, b: nat, c: nat)
    requires a >= b
    ensures a * c >= b * c
  {
  }
}
