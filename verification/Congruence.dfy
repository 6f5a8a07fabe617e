/** Congruence of integers modulo m. */
module Congruence {

  ghost predicate Congruent(m: int, a: int, b: int) {
    exists k :: a == b + m * k
  }

  lemma CongruentBy(m: int, a: int, b: int, k: int)
    requires a == b + m * k
    ensures Congruent(m, a, b)
  {
  }

  lemma CongruentChain(m: int, a: int, b: int, c: int)
    requires Congruent(m, a, b) && Congruent(m, b, c)
    ensures Congruent(m, a, c)
  {
    var k :| a == b + m * k;
    var l :| b == c + m * l;
    assert m * (k + l) == m * k + m * l;
    CongruentBy(m, a, c, k + l);
  }

  lemma CongruentSum(m: int, a: int, b: int, c: int, d: int)
    requires Congruent(m, a, b) && Congruent(m, c, d)
    ensures Congruent(m, a + c, b + d)
  {
    var k :| a == b + m * k;
    var l :| c == d + m * l;
    assert m * (k + l) == m * k + m * l;
    CongruentBy(m, a + c, b + d, k + l);
  }

  lemma CongruentTimes(m: int, x: int, a: int, b: int)
    requires Congruent(m, a, b)
    ensures Congruent(m, x * a, x * b)
  {
    var k :| a == b + m * k;
    assert x * (m * k) == m * (x * k);
    CongruentBy(m, x * a, x * b, x * k);
  }

  lemma CongruentProduct(m: int, a: int, b: int, c: int, d: int)
    requires Congruent(m, a, b) && Congruent(m, c, d)
    ensures Congruent(m, a * c, b * d)
  {
    CongruentTimes(m, a, c, d);
    CongruentTimes(m, d, a, b);
    CongruentChain(m, a * c, a * d, b * d);
  }

  lemma CongruentDifference(m: int, a: int, b: int, c: int, d: int)
    requires Congruent(m, a, b) && Congruent(m, c, d)
    ensures Congruent(m, a - c, b - d)
  {
    CongruentTimes(m, -1, c, d);
    CongruentSum(m, a, b, -1 * c, -1 * d);
  }

  lemma CongruentRemainder(m: int, a: int)
    requires m > 0
    ensures Congruent(m, a % m, a)
  {
    assert a == a / m * m + a % m;
    CongruentBy(m, a % m, a, -(a / m));
  }

  lemma CongruentFlip(m: int, a: int, b: int)
    requires Congruent(m, a, b)
    ensures Congruent(m, b, a)
  {
    var k :| a == b + m * k;
    assert m * -k == -(m * k);
    CongruentBy(m, b, a, -k);
  }
}
