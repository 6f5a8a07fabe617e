/** Quotient and remainder are determined by their equation. */
module Division {

  lemma UniqueRemainder(a: int, m: int, k: int, r: int)
    requires 0 < m && a == k * m + r && 0 <= r < m
    ensures a / m == k && a % m == r
  {
    var d := a / m - k;
    assert d * m == r - a % m;
    MultipleIsLarge(d, m);
  }

  /** A multiple other than zero is at least as far from zero as m. */
  lemma MultipleIsLarge(d: int, m: int)
    requires 0 < m
    ensures d >= 1 ==> d * m >= m
    ensures d <= -1 ==> d * m <= -m
  {
    if d >= 1 {
      assert (d - 1) * m >= 0;
    } else if d <= -1 {
      assert (-d - 1) * m >= 0;
    }
  }
}
