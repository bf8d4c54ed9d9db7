/**
 Rounding to a multiple of an alignment.
 */
module Rounding {
  /** Quotient and remainder are unique. */
  lemma ModIs(z: nat, align: nat, q: nat, r: nat)
    requires r < align && z == q * align + r
    ensures z % align == r && z / align == q
  {
    var d := z / align;
    assert z == d * align + z % align;
    if q > d {
      MulMore(d, q, align);
    } else if q < d {
      MulMore(q, d, align);
    }
  }

  lemma {:induction false} MulMore(a: nat, b: nat, align: nat)
    requires a < b
    ensures b * align >= a * align + align
  {
    Distribute(b - 1, 1, align);
    if a < b - 1 { MulMore(a, b - 1, align); }
  }

  /** x rounded down, in the source x & ~(align - 1). */
  function RoundDown(x: nat, align: nat): (r: nat)
    requires align > 0
    ensures r <= x < r + align
  {
    x - x % align
  }

  /** x rounded up, in the source ROUND_UP(x, align). */
  function RoundUp(x: nat, align: nat): (r: nat)
    requires align > 0
    ensures x <= r < x + align
  {
    if x % align == 0 then x else x - x % align + align
  }

  lemma ModAdd(x: nat, y: nat, align: nat)
    requires align > 0 && x % align == 0
    ensures (x + y) % align == y % align
  {
    var q, k := x / align, y / align;
    assert x == q * align && y == k * align + y % align;
    assert x + y == (q + k) * align + y % align by { Distribute(q, k, align); }
    ModIs(x + y, align, q + k, y % align);
  }

  lemma Distribute(a: nat, b: nat, c: nat)
    ensures (a + b) * c == a * c + b * c
  {
  }

  /** Both roundings give multiples, and rounding up gives the least multiple from x on. */
  lemma RoundedIs(x: nat, align: nat)
    requires align > 0
    ensures RoundDown(x, align) % align == 0 && RoundUp(x, align) % align == 0
  {
    var q := x / align;
    assert x == q * align + x % align;
    ModIs(x - x % align, align, q, 0);
    ModAdd(x - x % align, align, align);
    ModIs(align, align, 1, 0);
  }

  /** Rounding shifts with a multiple. */
  lemma RoundUpAdd(x: nat, y: nat, align: nat)
    requires align > 0 && x % align == 0
    ensures RoundUp(x + y, align) == x + RoundUp(y, align)
    ensures RoundDown(x + y, align) == x + RoundDown(y, align)
  {
    ModAdd(x, y, align);
  }
}
