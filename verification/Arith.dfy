/** The rounding macros of libsparse/sparse_defs.h and the facts the block arithmetic rests on. */
module Arith {
  function Min(a: nat, b: nat): nat {
    if a < b then a else b
  }

  function DivRoundUp(n: nat, d: nat): (q: nat)
    requires d > 0
  {
    (n + d - 1) / d
  }

  function Align(n: nat, d: nat): nat
    requires d > 0
  {
    d * DivRoundUp(n, d)
  }

  function AlignDown(n: nat, d: nat): nat
    requires d > 0
  {
    d * (n / d)
  }

  lemma DivMod(n: nat, d: nat)
    requires d > 0
    ensures n == d * (n / d) + n % d && 0 <= n % d < d
  {
  }

  lemma MulMono(a: int, b: int, d: nat)
    requires a <= b
    ensures a * d <= b * d
  {
  }

  lemma Distribute(a: int, b: int, d: int)
    ensures (a + b) * d == a * d + b * d
    ensures (a - b) * d == a * d - b * d
  {
  }

  lemma QuotientUnique(n: nat, d: nat, q: nat)
    requires d > 0
    requires q * d <= n < q * d + d
    ensures n / d == q
  {
    DivMod(n, d);
    if n / d < q {
      MulMono(n / d + 1, q, d);
    } else if q < n / d {
      MulMono(q + 1, n / d, d);
    }
  }

  lemma AlignBounds(n: nat, d: nat)
    requires d > 0
    ensures n <= Align(n, d) < n + d
    ensures Align(n, d) == DivRoundUp(n, d) * d
    ensures n > 0 ==> DivRoundUp(n, d) > 0
  {
    DivMod(n + d - 1, d);
  }

  lemma AlignDownBounds(n: nat, d: nat)
    requires d > 0
    ensures AlignDown(n, d) <= n < AlignDown(n, d) + d
    ensures AlignDown(n, d) == (n / d) * d
  {
    DivMod(n, d);
  }

  lemma DivRoundUpUnique(n: nat, d: nat, q: nat)
    requires d > 0
    requires n <= q * d < n + d
    ensures DivRoundUp(n, d) == q
  {
    QuotientUnique(n + d - 1, d, q);
  }

  lemma DivRoundUpOfMultiple(q: nat, d: nat)
    requires d > 0
    ensures DivRoundUp(q * d, d) == q
    ensures (q * d) / d == q
    ensures (q * d) % d == 0
  {
    DivRoundUpUnique(q * d, d, q);
    QuotientUnique(q * d, d, q);
    DivMod(q * d, d);
  }

  /** Cutting a whole number of blocks off the front takes exactly that many blocks off the count. */
  lemma DivRoundUpSplit(n: nat, q: nat, d: nat)
    requires d > 0 && q * d <= n
    ensures DivRoundUp(n, d) == q + DivRoundUp(n - q * d, d)
  {
    var m := n - q * d;
    AlignBounds(m, d);
    Distribute(q, DivRoundUp(m, d), d);
    DivRoundUpUnique(n, d, q + DivRoundUp(m, d));
  }

  lemma DivRoundUpMono(m: nat, n: nat, d: nat)
    requires d > 0 && m <= n
    ensures DivRoundUp(m, d) <= DivRoundUp(n, d)
  {
    AlignBounds(m, d);
    AlignBounds(n, d);
    if DivRoundUp(n, d) < DivRoundUp(m, d) {
      MulMono(DivRoundUp(n, d) + 1, DivRoundUp(m, d), d);
    }
  }

  lemma RoundsExactly(n: nat, d: nat)
    requires d > 0 && n % d == 0
    ensures DivRoundUp(n, d) == n / d && n == (n / d) * d
  {
    hide DivRoundUp;
    var q := n / d;
    DivMod(n, d);
    assert n == d * q == q * d;
    DivRoundUpOfMultiple(q, d);
  }

  lemma RoundsUpPast(n: nat, d: nat)
    requires d > 0 && n % d != 0
    ensures DivRoundUp(n, d) == n / d + 1
  {
    DivMod(n, d);
    Distribute(n / d, 1, d);
    DivRoundUpUnique(n, d, n / d + 1);
  }

  /** Rounding up and down agree exactly on the multiples. */
  lemma RoundingAgrees(n: nat, d: nat)
    requires d > 0
    ensures n / d <= DivRoundUp(n, d) <= n / d + 1
    ensures n / d == DivRoundUp(n, d) <==> n % d == 0
    ensures n % d == 0 ==> n == (n / d) * d
  {
    if n % d == 0 {
      RoundsExactly(n, d);
    } else {
      RoundsUpPast(n, d);
    }
  }

  /** Words of four bytes stay in phase across a block boundary when a block is a multiple of four. */
  lemma WordPhase(q: nat, d: nat, i: nat)
    requires d % 4 == 0
    ensures (q * d + i) % 4 == i % 4
  {
    var k := d / 4;
    assert d == 4 * k;
    assert q * d == 4 * (q * k);
    ModShift(q * k, i);
  }

  lemma ModShift(m: nat, i: nat)
    ensures (4 * m + i) % 4 == i % 4
  {
  }
}
