/**
 * The top of the bn256 tower: elements x*omega + y over GF(p^6) with omega^2 = tau, and the sparse
 * multiplication of the Miller loop.
 */
module GfP12 {
  import opened GfP2
  import opened GfP6
  import opened Powering

  datatype F12 = F12(x: F6, y: F6)

  const One12 := F12(Zero6, One6)

  type Product6 = (F6, F6) -> F6

  /** Names the elements at which a law is used; it is always true. */
  predicate At6(a: F6, b: F6, c: F6) {
    true
  }

  ghost predicate Laws6(mul: Product6) {
    && (forall a, b, c {:trigger At6(a, b, c)} :: mul(Plus6(a, b), c) == Plus6(mul(a, c), mul(b, c)))
    && (forall a, b, c {:trigger At6(a, b, c)} :: mul(mul(a, b), c) == mul(a, mul(b, c)))
    && (forall a, b, c {:trigger At6(a, b, c)} :: mul(a, b) == mul(b, a))
    && (forall a, b, c {:trigger At6(a, b, c)} :: mul(Tau(a), b) == Tau(mul(a, b)))
    && (forall a, b, c {:trigger At6(a, b, c)} :: mul(One6, a) == a)
  }

  /** The exact product of GfP6 obeys the laws. */
  lemma ExactIsLawful()
    ensures Laws6(Exact6)
  {
    TimesIsLawful();
    forall a, b, c ensures Exact6(Plus6(a, b), c) == Plus6(Exact6(a, c), Exact6(b, c)) {
      Dist6Of(Times2, a, b, c);
    }
    forall a, b, c ensures Exact6(Exact6(a, b), c) == Exact6(a, Exact6(b, c)) {
      AssocX(Times2, a, b, c);
      AssocY(Times2, a, b, c);
      AssocZ(Times2, a, b, c);
    }
    forall a, b ensures Exact6(a, b) == Exact6(b, a) {
      Comm6Of(Times2, a, b);
    }
    forall a, b ensures Exact6(Tau(a), b) == Tau(Exact6(a, b)) {
      Tau6Of(Times2, a, b);
    }
    forall a ensures Exact6(One6, a) == a {
      Unit6Of(Times2, a);
    }
  }

  lemma Assoc6(mul: Product6, a: F6, b: F6, c: F6)
    requires Laws6(mul)
    ensures mul(mul(a, b), c) == mul(a, mul(b, c))
  {
    assert At6(a, b, c);
  }

  lemma Comm6(mul: Product6, a: F6, b: F6)
    requires Laws6(mul)
    ensures mul(a, b) == mul(b, a)
  {
    assert At6(a, b, b);
  }

  lemma TauMul6(mul: Product6, a: F6, b: F6)
    requires Laws6(mul)
    ensures mul(Tau(a), b) == Tau(mul(a, b)) && mul(b, Tau(a)) == Tau(mul(b, a))
  {
    assert At6(a, b, b);
    assert At6(Tau(a), b, b);
  }

  lemma Dist6(mul: Product6, a: F6, b: F6, c: F6)
    requires Laws6(mul)
    ensures mul(Plus6(a, b), c) == Plus6(mul(a, c), mul(b, c))
    ensures mul(c, Plus6(a, b)) == Plus6(mul(c, a), mul(c, b))
  {
    assert At6(a, b, c);
    Comm6(mul, a, c);
    Comm6(mul, b, c);
    Comm6(mul, Plus6(a, b), c);
  }

  lemma DistMinus6(mul: Product6, a: F6, b: F6, c: F6)
    requires Laws6(mul)
    ensures mul(Minus6(a, b), c) == Minus6(mul(a, c), mul(b, c))
    ensures mul(c, Minus6(a, b)) == Minus6(mul(c, a), mul(c, b))
  {
    Dist6(mul, Minus6(a, b), b, c);
    assert Plus6(Minus6(a, b), b) == a;
  }

  lemma ZeroMul6(mul: Product6, a: F6)
    requires Laws6(mul)
    ensures mul(Zero6, a) == Zero6 && mul(a, Zero6) == Zero6
  {
    DistMinus6(mul, a, a, a);
    assert Minus6(a, a) == Zero6;
  }

  // ---------------------------------------------------------------- products

  /** The product, from omega^2 = tau; Mul of the code has the same form. */
  function Times12(mul: Product6, a: F12, b: F12): F12 {
    F12(Plus6(mul(a.x, b.y), mul(b.x, a.y)), Plus6(mul(a.y, b.y), Tau(mul(a.x, b.x))))
  }

  /** Complex squaring: two multiplications. */
  function ComplexSquare(mul: Product6, a: F12): F12 {
    var v0 := mul(a.x, a.y);
    var ty := mul(Plus6(a.x, a.y), Plus6(a.y, Tau(a.x)));
    F12(Plus6(v0, v0), Minus6(Minus6(ty, v0), Tau(v0)))
  }

  lemma SquareIsTimes(mul: Product6, a: F12)
    requires Laws6(mul)
    ensures ComplexSquare(mul, a) == Times12(mul, a, a)
  {
    Dist6(mul, a.x, a.y, Plus6(a.y, Tau(a.x)));
    Dist6(mul, a.y, Tau(a.x), a.x);
    Dist6(mul, a.y, Tau(a.x), a.y);
    TauMul6(mul, a.x, a.x);
    TauMul6(mul, a.x, a.y);
    Comm6(mul, a.x, a.y);
  }

  lemma SumTimes6(mul: Product6, a: F6, b: F6, c: F6)
    requires Laws6(mul)
    ensures mul(Plus6(a, Tau(b)), c) == Plus6(mul(a, c), Tau(mul(b, c)))
    ensures mul(c, Plus6(a, Tau(b))) == Plus6(mul(c, a), Tau(mul(c, b)))
  {
    Dist6(mul, a, Tau(b), c);
    TauMul6(mul, b, c);
  }

  /** The coefficient of omega in a product of three. */
  lemma Assoc12X(mul: Product6, a: F12, b: F12, c: F12)
    requires Laws6(mul)
    ensures Times12(mul, Times12(mul, a, b), c).x == Times12(mul, a, Times12(mul, b, c)).x
  {
    Dist6(mul, mul(a.x, b.y), mul(b.x, a.y), c.y);
    SumTimes6(mul, mul(a.y, b.y), mul(a.x, b.x), c.x);
    SumTimes6(mul, mul(b.y, c.y), mul(b.x, c.x), a.x);
    Dist6(mul, mul(b.x, c.y), mul(c.x, b.y), a.y);
    Orders(mul, a.x, b.y, c.y);
    Orders(mul, b.x, a.y, c.y);
    Orders(mul, a.y, b.y, c.x);
    Orders(mul, a.x, b.x, c.x);
  }

  lemma Assoc12Y(mul: Product6, a: F12, b: F12, c: F12)
    requires Laws6(mul)
    ensures Times12(mul, Times12(mul, a, b), c).y == Times12(mul, a, Times12(mul, b, c)).y
  {
    SumTimes6(mul, mul(a.y, b.y), mul(a.x, b.x), c.y);
    Dist6(mul, mul(a.x, b.y), mul(b.x, a.y), c.x);
    SumTimes6(mul, mul(b.y, c.y), mul(b.x, c.x), a.y);
    Dist6(mul, mul(b.x, c.y), mul(c.x, b.y), a.x);
    Orders(mul, a.y, b.y, c.y);
    Orders(mul, a.x, b.x, c.y);
    Orders(mul, a.x, b.y, c.x);
    Orders(mul, b.x, a.y, c.x);
  }

  /** A product of three in the orders in which it comes up. */
  lemma Orders(mul: Product6, a: F6, b: F6, c: F6)
    requires Laws6(mul)
    ensures mul(mul(a, b), c) == mul(a, mul(b, c)) == mul(mul(b, c), a) == mul(c, mul(a, b))
    ensures mul(mul(a, b), c) == mul(b, mul(a, c)) == mul(mul(a, c), b)
    ensures mul(mul(a, b), c) == mul(a, mul(c, b)) == mul(mul(c, b), a) == mul(b, mul(c, a)) == mul(mul(c, a), b)
  {
    Assoc6(mul, a, b, c);
    Assoc6(mul, b, a, c);
    Comm6(mul, a, b);
    Comm6(mul, a, c);
    Comm6(mul, b, c);
    Comm6(mul, mul(a, b), c);
    Comm6(mul, a, mul(b, c));
    Comm6(mul, b, mul(a, c));
  }

  // ---------------------------------------------------------------- congruence

  ghost predicate Cong12(p: int, a: F12, b: F12) {
    Cong6(p, a.x, b.x) && Cong6(p, a.y, b.y)
  }

  lemma Same12(p: int, a: F12)
    ensures Cong12(p, a, a)
  {
    Same6(p, a.x);
    Same6(p, a.y);
  }

  lemma Chain12(p: int, a: F12, b: F12, c: F12)
    requires Cong12(p, a, b) && Cong12(p, b, c)
    ensures Cong12(p, a, c)
  {
    Chain6(p, a.x, b.x, c.x);
    Chain6(p, a.y, b.y, c.y);
  }

  /** Two products that agree modulo p on congruent factors. */
  ghost predicate Agree6(p: int, m: Product6, n: Product6) {
    forall a, b, c, d {:trigger m(a, c), n(b, d)} :: Cong6(p, a, b) && Cong6(p, c, d) ==> Cong6(p, m(a, c), n(b, d))
  }

  lemma CongTimes12(p: int, m: Product6, n: Product6, a: F12, b: F12, c: F12, d: F12)
    requires Agree6(p, m, n) && Cong12(p, a, b) && Cong12(p, c, d)
    ensures Cong12(p, Times12(m, a, c), Times12(n, b, d))
  {
    CongPlus6(p, m(a.x, c.y), n(b.x, d.y), m(c.x, a.y), n(d.x, b.y));
    CongTau(p, m(a.x, c.x), n(b.x, d.x));
    CongPlus6(p, m(a.y, c.y), n(b.y, d.y), Tau(m(a.x, c.x)), Tau(n(b.x, d.x)));
  }

  lemma CongSquare(p: int, m: Product6, n: Product6, a: F12)
    requires Agree6(p, m, n)
    ensures Cong12(p, ComplexSquare(m, a), ComplexSquare(n, a))
  {
    Same12(p, a);
    var s, t := Plus6(a.x, a.y), Plus6(a.y, Tau(a.x));
    Same6(p, s);
    Same6(p, t);
    CongPlus6(p, m(a.x, a.y), n(a.x, a.y), m(a.x, a.y), n(a.x, a.y));
    CongMinus6(p, m(s, t), n(s, t), m(a.x, a.y), n(a.x, a.y));
    CongTau(p, m(a.x, a.y), n(a.x, a.y));
    CongMinus6(p, Minus6(m(s, t), m(a.x, a.y)), Minus6(n(s, t), n(a.x, a.y)), Tau(m(a.x, a.y)), Tau(n(a.x, a.y)));
  }

  // ---------------------------------------------------------------- the code

  function Above(p: int): Product6
    requires p > 0
  {
    (u, v) => Mul6(p, u, v)
  }

  function Exact12(a: F12, b: F12): F12 {
    Times12(Exact6, a, b)
  }

  lemma AboveAgrees(p: int)
    requires p > 0
    ensures Agree6(p, Above(p), Exact6) && Agree6(p, Exact6, Exact6)
  {
    forall a, b, c, d | Cong6(p, a, b) && Cong6(p, c, d)
      ensures Cong6(p, Mul6(p, a, c), Exact6(b, d)) && Cong6(p, Exact6(a, c), Exact6(b, d))
    {
      Mul6Correct(p, a, c);
      CongExact6(p, a, b, c, d);
      Chain6(p, Mul6(p, a, c), Exact6(a, c), Exact6(b, d));
    }
  }

  function Mul12(p: int, a: F12, b: F12): F12
    requires p > 0
  {
    Times12(Above(p), a, b)
  }

  function Square12(p: int, a: F12): F12
    requires p > 0
  {
    ComplexSquare(Above(p), a)
  }

  /** Mul computes the product modulo p, of factors that are themselves only known modulo p. */
  lemma Mul12Correct(p: int, a: F12, b: F12, a': F12, b': F12)
    requires p > 0 && Cong12(p, a, a') && Cong12(p, b, b')
    ensures Cong12(p, Mul12(p, a, b), Exact12(a', b'))
  {
    AboveAgrees(p);
    CongTimes12(p, Above(p), Exact6, a, a', b, b');
  }

  lemma Square12Correct(p: int, a: F12, a': F12)
    requires p > 0 && Cong12(p, a, a')
    ensures Cong12(p, Square12(p, a), Exact12(a', a'))
  {
    AboveAgrees(p);
    ExactIsLawful();
    CongSquare(p, Above(p), Exact6, a);
    SquareIsTimes(Exact6, a);
    CongTimes12(p, Exact6, Exact6, a, a', a, a');
    Chain12(p, Square12(p, a), Exact12(a, a), Exact12(a', a'));
  }

  function Negative6(a: F6): F6 {
    Minus6(Zero6, a)
  }

  function Norm12(p: int, a: F12): F6
    requires p > 0
  {
    Minus6(Square6(p, a.y), Tau(Square6(p, a.x)))
  }

  function Invert12(p: int, a: F12): F12
    requires p >= 2
  {
    var t2 := Invert6(p, Norm12(p, a));
    F12(Mul6(p, Negative6(a.x), t2), Mul6(p, a.y, t2))
  }

  ghost predicate Invertible12(p: int, a: F12) {
    p >= 2 && Invertible6(p, Norm12(p, a))
  }

  /** The product of a with its conjugate times t. */
  lemma ConjugateTimes(mul: Product6, a: F12, t: F6)
    requires Laws6(mul)
    ensures Times12(mul, a, F12(mul(Negative6(a.x), t), mul(a.y, t))) ==
            F12(Zero6, mul(Minus6(mul(a.y, a.y), Tau(mul(a.x, a.x))), t))
  {
    DistMinus6(mul, Zero6, a.x, t);
    ZeroMul6(mul, t);
    var neg := mul(Negative6(a.x), t);
    assert neg == Minus6(Zero6, mul(a.x, t));
    Orders(mul, a.x, a.y, t);
    DistMinus6(mul, Zero6, mul(a.x, t), a.y);
    DistMinus6(mul, Zero6, mul(a.x, t), a.x);
    ZeroMul6(mul, a.y);
    ZeroMul6(mul, a.x);
    DistMinus6(mul, mul(a.y, a.y), Tau(mul(a.x, a.x)), t);
    TauMul6(mul, mul(a.x, a.x), t);
    Assoc6(mul, a.y, a.y, t);
    Assoc6(mul, a.x, a.x, t);
  }

  lemma Norm12Correct(p: int, a: F12)
    requires p > 0
    ensures Cong6(p, Norm12(p, a), Minus6(Exact6(a.y, a.y), Tau(Exact6(a.x, a.x))))
  {
    SquareIsMul6(p, a.x);
    SquareIsMul6(p, a.y);
    Mul6Correct(p, a.x, a.x);
    Mul6Correct(p, a.y, a.y);
    CongTau(p, Square6(p, a.x), Exact6(a.x, a.x));
    CongMinus6(p, Square6(p, a.y), Exact6(a.y, a.y), Tau(Square6(p, a.x)), Tau(Exact6(a.x, a.x)));
  }

  /** Inversion: the product with the inverse is one modulo p. */
  lemma Invert12Correct(p: int, a: F12)
    requires Invertible12(p, a)
    ensures Cong12(p, Exact12(a, Invert12(p, a)), One12)
  {
    var n, t := Norm12(p, a), Invert6(p, Norm12(p, a));
    var m := Minus6(Exact6(a.y, a.y), Tau(Exact6(a.x, a.x)));
    var exact := F12(Exact6(Negative6(a.x), t), Exact6(a.y, t));
    Mul6Correct(p, Negative6(a.x), t);
    Mul6Correct(p, a.y, t);
    Same12(p, a);
    AboveAgrees(p);
    CongTimes12(p, Exact6, Exact6, a, a, Invert12(p, a), exact);
    ExactIsLawful();
    ConjugateTimes(Exact6, a, t);
    Norm12Correct(p, a);
    Invert6Correct(p, n);
    Flip6(p, n, m);
    Same6(p, t);
    CongExact6(p, m, n, t, t);
    Chain6(p, Exact6(m, t), Exact6(n, t), One6);
    Same6(p, Zero6);
    Chain12(p, Exact12(a, Invert12(p, a)), F12(Zero6, Exact6(m, t)), One12);
  }

  lemma Flip6(p: int, a: F6, b: F6)
    requires Cong6(p, a, b)
    ensures Cong6(p, b, a)
  {
    Flip2(p, a.x, b.x);
    Flip2(p, a.y, b.y);
    Flip2(p, a.z, b.z);
  }

  // ---------------------------------------------------------------- lines

  /** (a*tau + b)*omega + c, the shape of a line evaluated in the Miller loop. */
  function Line(a: F2, b: F2, c: F2): F12 {
    F12(F6(Zero2, a, b), F6(Zero2, Zero2, c))
  }

  function MulLine(p: int, ret: F12, a: F2, b: F2, c: F2): F12
    requires p > 0
  {
    var a2 := Mul6(p, F6(Zero2, a, b), ret.x);
    var t3 := Scale6(Below(p), ret.y, c);
    var t2 := F6(Zero2, a, Plus2(b, c));
    var rx := Mul6(p, Plus6(ret.x, ret.y), t2);
    F12(Minus6(Minus6(rx, a2), t3), Plus6(t3, Tau(a2)))
  }

  /** Multiplying by an element of the base field scales. */
  lemma ScaleIsTimes(mul: Product2, r: F6, c: F2)
    requires Laws2(mul)
    ensures Times6(mul, r, F6(Zero2, Zero2, c)) == Scale6(mul, r, c)
  {
    ZeroMul2(mul, r.x);
    ZeroMul2(mul, r.y);
    ZeroMul2(mul, r.z);
  }

  lemma LineExact(mul: Product6, r: F12, l: F6, c: F6)
    requires Laws6(mul)
    ensures Times12(mul, r, F12(l, c)) ==
            F12(Minus6(Minus6(mul(Plus6(r.x, r.y), Plus6(l, c)), mul(l, r.x)), mul(r.y, c)),
                Plus6(mul(r.y, c), Tau(mul(l, r.x))))
  {
    Dist6(mul, r.x, r.y, Plus6(l, c));
    Dist6(mul, l, c, r.x);
    Dist6(mul, l, c, r.y);
    Comm6(mul, l, r.x);
    Comm6(mul, l, r.y);
  }

  /** mulLine multiplies by the line. */
  lemma MulLineCorrect(p: int, ret: F12, a: F2, b: F2, c: F2)
    requires p > 0
    ensures Cong12(p, MulLine(p, ret, a, b, c), Exact12(ret, Line(a, b, c)))
  {
    var l, k := F6(Zero2, a, b), F6(Zero2, Zero2, c);
    var s, t2 := Plus6(ret.x, ret.y), F6(Zero2, a, Plus2(b, c));
    ExactIsLawful();
    LineExact(Exact6, ret, l, k);
    assert Plus6(l, k) == t2;
    Mul6Correct(p, l, ret.x);
    Mul6Correct(p, s, t2);
    ScaledCorrect(p, ret.y, c);
    var a2, t3, rx := Mul6(p, l, ret.x), Scale6(Below(p), ret.y, c), Mul6(p, s, t2);
    CongMinus6(p, rx, Exact6(s, t2), a2, Exact6(l, ret.x));
    CongMinus6(p, Minus6(rx, a2), Minus6(Exact6(s, t2), Exact6(l, ret.x)), t3, Exact6(ret.y, k));
    CongTau(p, a2, Exact6(l, ret.x));
    CongPlus6(p, t3, Exact6(ret.y, k), Tau(a2), Tau(Exact6(l, ret.x)));
  }

  lemma ScaledCorrect(p: int, r: F6, c: F2)
    requires p > 0
    ensures Cong6(p, Scale6(Below(p), r, c), Exact6(r, F6(Zero2, Zero2, c)))
  {
    Mul2Correct(p, r.x, c);
    Mul2Correct(p, r.y, c);
    Mul2Correct(p, r.z, c);
    TimesIsLawful();
    ScaleIsTimes(Times2, r, c);
  }

  // ---------------------------------------------------------------- powers

  lemma One12Of(mul: Product6, a: F12)
    requires Laws6(mul)
    ensures Times12(mul, One12, a) == a
  {
    assert At6(a.x, a.y, a.x) && At6(a.y, a.x, a.x);
    Comm6(mul, One6, a.x);
    ZeroMul6(mul, a.x);
    ZeroMul6(mul, a.y);
    assert Tau(Zero6) == Zero6;
    assert Plus6(Zero6, a.x) == a.x && Plus6(a.y, Zero6) == a.y;
  }

  lemma Comm12(mul: Product6, a: F12, b: F12)
    requires Laws6(mul)
    ensures Times12(mul, a, b) == Times12(mul, b, a)
  {
    Comm6(mul, a.x, b.x);
    Comm6(mul, a.y, b.y);
    Comm6(mul, a.x, b.y);
    Comm6(mul, b.x, a.y);
  }

  /** The exact product with One12 is a monoid. */
  lemma ExactIsMonoid()
    ensures Monoid(One12, Exact12)
  {
    ExactIsLawful();
    forall a, b, c ensures Exact12(Exact12(a, b), c) == Exact12(a, Exact12(b, c)) {
      Assoc12X(Exact6, a, b, c);
      Assoc12Y(Exact6, a, b, c);
    }
    forall a ensures Exact12(One12, a) == a && Exact12(a, One12) == a {
      One12Of(Exact6, a);
      Comm12(Exact6, One12, a);
    }
  }

  lemma CodeFollows(p: int)
    requires p > 0
    ensures Follows((a, b) => Cong12(p, a, b), (a, b) => Mul12(p, a, b), a => Square12(p, a), Exact12)
  {
    forall a ensures Cong12(p, a, a) {
      Same12(p, a);
    }
    forall a, b, c, d | Cong12(p, a, b) && Cong12(p, c, d) ensures Cong12(p, Mul12(p, a, c), Exact12(b, d)) {
      Mul12Correct(p, a, c, b, d);
    }
    forall a, b | Cong12(p, a, b) ensures Cong12(p, Square12(p, a), Exact12(b, b)) {
      Square12Correct(p, a, b);
    }
  }

  /** Exp is repeated multiplication modulo p. */
  method Exp12(p: int, a: F12, power: nat) returns (r: F12)
    requires p > 0
    ensures Cong12(p, r, Power(One12, Exact12, a, power))
  {
    ExactIsMonoid();
    CodeFollows(p);
    r := SquareAndMultiply(One12, (a, b) => Mul12(p, a, b), a => Square12(p, a), a, power,
                           Exact12, (a, b) => Cong12(p, a, b));
  }
}
