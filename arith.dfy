/** Facts about products with a positive factor, shared by the page arithmetic on both sides. */
module Arith {

  /** A non-zero multiple of a positive `n` is at least `n` away from zero. */
  lemma ProductBounds(d: int, n: int)
    requires n > 0
    ensures d >= 1 ==> d * n >= n
    ensures d <= -1 ==> d * n <= -n
  {
    if d >= 1 {
      assert d * n == (d - 1) * n + n;
    } else if d <= -1 {
      assert d * n == (d + 1) * n - n;
    }
  }
}
