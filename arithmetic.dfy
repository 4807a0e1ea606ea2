/** Facts about integer multiplication and division that the solver does not
    find on its own. */
module Arithmetic {
  lemma MulSucc(k: int, x: int)
    ensures (k + 1) * x == k * x + x
  {
  }

  lemma MulAtLeast(d: int, w: int)
    requires d >= 1 && w > 0
    ensures d * w >= w
  {
  }

  lemma MulInside(d: int, w: int)
    requires w > 0 && -w < d * w < w
    ensures d == 0
  {
    if d >= 1 { MulAtLeast(d, w); }
    if d <= -1 { MulAtLeast(-d, w); }
  }

  /** Division with remainder is unique: a == q * w + r with 0 <= r < w
      makes q the quotient and r the remainder. */
  lemma DivModUnique(a: int, w: int, q: int, r: int)
    requires w > 0 && 0 <= r < w && a == q * w + r
    ensures a / w == q && a % w == r
  {
    var q2, r2 := a / w, a % w;
    assert (q - q2) * w == r2 - r by {
      assert (q - q2) * w == q * w - q2 * w;
    }
    MulInside(q - q2, w);
  }

  lemma MulAssociates(x: int, y: int, z: int)
    ensures x * y * z == x * (y * z)
  {
  }

  /** Doubling a factor, in the two groupings the halving proofs use. */
  lemma Regroup(s: int, p: int)
    ensures s * (2 * p) == (2 * s) * p
    ensures (2 * s + 1) * p == (2 * s) * p + p
  {
  }
}
