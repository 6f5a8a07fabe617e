/** Square-and-multiply, as gfP2.Exp and gfP12.Exp do it, against repeated multiplication. */
module Powering {
  import opened Mpint

  /** Repeated multiplication. */
  function Power<T>(one: T, mul: (T, T) -> T, a: T, n: nat): T
    decreases n, mul
  {
    if n == 0 then one else mul(a, Power(one, mul, a, n - 1))
  }

  /** Names the elements at which a law is used; it is always true. */
  predicate At<T>(a: T, b: T, c: T) {
    true
  }

  ghost predicate Monoid<T(!new)>(one: T, mul: (T, T) -> T) {
    && (forall a, b, c {:trigger At(a, b, c)} :: mul(mul(a, b), c) == mul(a, mul(b, c)))
    && (forall a, b, c {:trigger At(a, b, c)} :: mul(one, a) == a && mul(a, one) == a)
  }

  /** Two operations that follow the exact product up to a congruence. */
  ghost predicate Follows<T(!new)>(cong: (T, T) -> bool, mul: (T, T) -> T, sq: T -> T, exact: (T, T) -> T) {
    && (forall a {:trigger cong(a, a)} :: cong(a, a))
    && (forall a, b, c, d {:trigger mul(a, c), exact(b, d)} :: cong(a, b) && cong(c, d) ==>
        cong(mul(a, c), exact(b, d)))
    && (forall a, b {:trigger sq(a), exact(b, b)} :: cong(a, b) ==> cong(sq(a), exact(b, b)))
  }

  lemma {:induction false} PowerSum<T(!new)>(one: T, mul: (T, T) -> T, a: T, m: nat, n: nat)
    requires Monoid(one, mul)
    ensures mul(Power(one, mul, a, m), Power(one, mul, a, n)) == Power(one, mul, a, m + n)
  {
    if m == 0 {
      assert At(Power(one, mul, a, n), one, one);
    } else {
      PowerSum(one, mul, a, m - 1, n);
      assert At(a, Power(one, mul, a, m - 1), Power(one, mul, a, n));
    }
  }

  lemma PowerNext<T(!new)>(one: T, mul: (T, T) -> T, a: T, n: nat)
    requires Monoid(one, mul)
    ensures mul(Power(one, mul, a, n), a) == Power(one, mul, a, n + 1)
  {
    PowerSum(one, mul, a, n, 1);
    assert At(a, one, one);
    assert Power(one, mul, a, 0) == one;
    assert Power(one, mul, a, 1) == mul(a, one);
  }

  /** power without its i low bits. */
  function Shifted(power: nat, i: nat): nat
    decreases i, power
  {
    if i == 0 then power else Shifted(power, i - 1) / 2
  }

  lemma {:induction false} ShiftedOut(power: nat, i: nat)
    requires i >= BitLen(power)
    ensures Shifted(power, i) == 0
    decreases i
  {
    if i > 0 {
      ShiftedOnce(power, i);
      ShiftedOut(power / 2, i - 1);
    }
  }

  lemma {:induction false} ShiftedOnce(power: nat, i: nat)
    requires i > 0
    ensures Shifted(power, i) == Shifted(power / 2, i - 1)
  {
    if i > 1 {
      ShiftedOnce(power, i - 1);
    }
  }

  lemma OneBit(power: nat, i: nat)
    requires i > 0
    ensures Shifted(power, i - 1) == 2 * Shifted(power, i) + Shifted(power, i - 1) % 2
  {
  }

  /** What a squaring and a multiplication make of the power reached so far. */
  lemma Step<T(!new)>(one: T, mul: (T, T) -> T, sq: T -> T, a: T, sum: T, k: nat, exact: (T, T) -> T,
      cong: (T, T) -> bool)
    requires Monoid(one, exact) && Follows(cong, mul, sq, exact) && cong(sum, Power(one, exact, a, k))
    ensures cong(sq(sum), Power(one, exact, a, 2 * k)) && cong(mul(sq(sum), a), Power(one, exact, a, 2 * k + 1))
  {
    var reached := Power(one, exact, a, k);
    PowerSum(one, exact, a, k, k);
    assert cong(sq(sum), exact(reached, reached));
    PowerNext(one, exact, a, 2 * k);
    assert cong(a, a);
    assert cong(mul(sq(sum), a), exact(exact(reached, reached), a));
  }

  /** With all bits of the power shifted out, one is the power reached. */
  lemma Start<T>(one: T, a: T, power: nat, i: nat, exact: (T, T) -> T, cong: (T, T) -> bool)
    requires i >= BitLen(power) && cong(one, one)
    ensures cong(one, Power(one, exact, a, Shifted(power, i)))
  {
    ShiftedOut(power, i);
  }

  /** What one bit of the power makes of the power reached so far. */
  lemma NextBit<T(!new)>(one: T, mul: (T, T) -> T, sq: T -> T, a: T, sum: T, power: nat, i: nat,
                         exact: (T, T) -> T, cong: (T, T) -> bool)
    requires Monoid(one, exact) && Follows(cong, mul, sq, exact) && i > 0
    requires cong(sum, Power(one, exact, a, Shifted(power, i)))
    ensures cong(if Shifted(power, i - 1) % 2 != 0 then mul(sq(sum), a) else sq(sum),
                 Power(one, exact, a, Shifted(power, i - 1)))
  {
    OneBit(power, i);
    Step(one, mul, sq, a, sum, Shifted(power, i), exact, cong);
  }

  /** Exp: from the highest bit down, a squaring each time and a multiplication where the bit is set. */
  method SquareAndMultiply<T(!new)>(one: T, mul: (T, T) -> T, sq: T -> T, a: T, power: nat,
                                    ghost exact: (T, T) -> T, ghost cong: (T, T) -> bool) returns (sum: T)
    requires Monoid(one, exact) && Follows(cong, mul, sq, exact)
    ensures cong(sum, Power(one, exact, a, power))
  {
    sum := one;
    var i := BitLen(power);
    Start(one, a, power, i, exact, cong);
    while i > 0
      invariant cong(sum, Power(one, exact, a, Shifted(power, i)))
    {
      NextBit(one, mul, sq, a, sum, power, i, exact, cong);
      i := i - 1;
      sum := if Shifted(power, i) % 2 != 0 then mul(sq(sum), a) else sq(sum);
    }
  }
}
