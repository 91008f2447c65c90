/** Facts about multiplication, division and remainder with a variable divisor,
    which the solver does not find by itself. */
module Arith {

  lemma MulLe(x: int, y: int, a: int)
    requires x <= y && a >= 0
    ensures x * a <= y * a
  {
    assert (y - x) * a >= 0;
  }

  /** Row b of n rows of a flat matrix ends inside it. */
  lemma RowInside(b: nat, n: nat, width: nat)
    requires b < n
    ensures b * width + width <= n * width
  {
    MulLe(b + 1, n, width);
  }

  lemma DivModUnique(x: int, q: int, r: int, a: int)
    requires a > 0 && 0 <= r < a && x == q * a + r
    ensures x / a == q && x % a == r
  {
    var p := x / a;
    assert p * a <= x < p * a + a;
    if p > q {
      MulLe(q + 1, p, a);
      assert false;
    } else if p < q {
      MulLe(p + 1, q, a);
      assert false;
    }
  }

  lemma ModPlus(x: nat, a: nat)
    requires a > 0
    ensures (x + a) % a == x % a && (x + a) / a == x / a + 1
  {
    var q, r := x / a, x % a;
    assert x + a == (q + 1) * a + r;
    DivModUnique(x + a, q + 1, r, a);
  }

  /** Exactly one of d consecutive numbers has a given remainder. */
  lemma ModWindow(i: nat, e: nat, a: nat)
    requires a > 0 && i < e < i + a
    ensures e % a != i % a
  {
    var q, r, d := i / a, i % a, e - i;
    if r + d < a {
      DivModUnique(e, q, r + d, a);
    } else {
      assert e == (q + 1) * a + (r + d - a);
      DivModUnique(e, q + 1, r + d - a, a);
    }
  }

  lemma SmallMod(e: nat, a: nat)
    requires e < a
    ensures e % a == e && e / a == 0
  {
    DivModUnique(e, 0, e, a);
  }
}
