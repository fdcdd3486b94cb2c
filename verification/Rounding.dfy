/** Multiples of a block or page size, and the division that rounds up. */
module Rounding {

  /** Where the `n`-th block of a given size begins: `n * size`, written as a sum. */
  function At(n: nat, size: nat): nat {
    if n == 0 then 0 else At(n - 1, size) + size
  }

  lemma AtIsProduct(n: nat, size: nat)
    ensures At(n, size) == n * size
  {
    if n != 0 {
      AtIsProduct(n - 1, size);
      assert (n - 1) * size + size == n * size;
    }
  }

  /** Blocks lie one after the other. */
  lemma FrameInside(m: nat, n: nat, size: nat)
    requires m < n
    ensures At(m, size) + size <= At(n, size)
  {
    if m + 1 < n { FrameInside(m, n - 1, size); }
  }

  /** `redondearDivisionPaArriba`. */
  function CeilDiv(dividend: nat, divisor: nat): nat
    requires 0 < divisor
  {
    dividend / divisor + if dividend % divisor > 0 then 1 else 0
  }

  /** The rounded-up quotient is the number of blocks that `dividend` bytes need: enough, and not one more. */
  lemma CeilDivCovers(dividend: nat, divisor: nat)
    requires 0 < divisor
    ensures dividend <= At(CeilDiv(dividend, divisor), divisor) < dividend + divisor
  {
    var q := dividend / divisor;
    assert dividend == q * divisor + dividend % divisor;
    AtIsProduct(q, divisor);
  }

  lemma QuotientUnique(q: nat, d: nat, r: nat, x: nat)
    requires r < d && x == q * d + r
    ensures x / d == q && x % d == r
  {
    var q', r' := x / d, x % d;
    assert x == q' * d + r';
    TimesGrows(q + 1, q', d);
    TimesGrows(q' + 1, q, d);
    assert (q + 1) * d == q * d + d && (q' + 1) * d == q' * d + d;
  }

  lemma TimesGrows(a: nat, b: nat, d: nat)
    ensures a <= b ==> a * d <= b * d
  {
  }

  /** Every position lies in some block. */
  lemma Split(x: nat, size: nat)
    requires 0 < size
    ensures x == At(x / size, size) + x % size && x % size < size
  {
    AtIsProduct(x / size, size);
  }

  /** The numbers from `lo` up to `hi`, without `hi`. */
  function Range(lo: int, hi: int): (s: set<int>)
    ensures forall n :: n in s <==> lo <= n < hi
    decreases hi - lo
  {
    if lo < hi then Range(lo, hi - 1) + {hi - 1} else {}
  }

  lemma {:induction false} RangeSize(lo: int, hi: int)
    requires lo <= hi
    ensures |Range(lo, hi)| == hi - lo
    decreases hi - lo
  {
    if hi <= lo {
    } else {
      RangeSize(lo, hi - 1);
    }
  }

  lemma SameSet(a: set<int>, b: set<int>)
    requires forall x :: x in a <==> x in b
    ensures a == b
  {
    forall x | x in a
      ensures x in b
    {
    }
    forall x | x in b
      ensures x in a
    {
    }
  }
}
