/** Small facts about natural-number powers and Euclidean division used by the
    byte and decimal encoders. */
module Arith {

  /** b raised to the k-th power. */
  function Pow(b: nat, k: nat): (r: nat)
    ensures b > 0 ==> r > 0
  {
    if k == 0 then 1 else b * Pow(b, k - 1)
  }

  /** Division is determined by any quotient/remainder pair that satisfies its defining
      equation. */
  lemma DivModUnique(a: int, m: int, q: int, r: int)
    requires m > 0 && 0 <= r < m && a == q * m + r
    ensures a / m == q && a % m == r
  {
    var q0, r0 := a / m, a % m;
    assert (q0 - q) * m == r - r0;
    if q0 != q {
      var d := if q0 > q then q0 - q else q - q0;
      assert d * m == (if q0 > q then r - r0 else r0 - r);
      MulAtLeast(d, m);
    }
  }

  /** A positive multiple of m is at least m. */
  lemma MulAtLeast(d: int, m: int)
    requires d >= 1 && m > 0
    ensures d * m >= m
  {
    assert d * m == (d - 1) * m + m;
  }

  /** Dividing twice is dividing once by the product. */
  lemma DivDiv(a: nat, b: nat, c: nat)
    requires b > 0 && c > 0
    ensures a / b / c == a / (b * c)
  {
    var q, r := a / b, a % b;
    var q2, r2 := q / c, q % c;
    var bc := b * c;
    assert a == q * b + r;
    assert q == q2 * c + r2;
    assert q * b == q2 * bc + r2 * b by {
      MulDistrib(q2 * c, r2, b);
      MulAssoc(q2, c, b);
    }
    MulMonotone(r2, c - 1, b);
    assert (c - 1) * b == bc - b;
    DivModUnique(a, bc, q2, r2 * b + r);
  }

  lemma MulDistrib(x: int, y: int, m: int)
    ensures (x + y) * m == x * m + y * m
  {
  }

  lemma MulAssoc(x: int, y: int, m: int)
    ensures (x * y) * m == x * (m * y)
  {
  }

  /** A number below m * p has quotient by m below p. */
  lemma DivBelow(a: nat, m: nat, p: nat)
    requires m > 0 && a < m * p
    ensures a / m < p
  {
    var q := a / m;
    if q >= p {
      MulMonotone(p, q, m);
    }
  }

  lemma MulMonotone(x: nat, y: nat, m: nat)
    requires x <= y
    ensures x * m <= y * m
  {
    assert y * m == x * m + (y - x) * m;
  }

  /** Taking the successor commutes with reduction modulo m. */
  lemma ModSucc(x: nat, m: nat)
    requires m > 0
    ensures (x % m + 1) % m == (x + 1) % m
  {
    var q, r := x / m, x % m;
    if r + 1 < m {
      DivModUnique(x + 1, m, q, r + 1);
      DivModUnique(r + 1, m, 0, r + 1);
    } else {
      DivModUnique(x + 1, m, q + 1, 0);
      DivModUnique(r + 1, m, 1, 0);
    }
  }
}
