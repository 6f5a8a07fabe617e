/**
 * The cubic extension of bn256: elements x*tau^2 + y*tau + z over GF(p^2) with tau^3 = xi. Every
 * definition takes the multiplication below it as an argument, so that the algebra is done once for
 * the exact product and the code is compared with it modulo p.
 */
module GfP6 {
  import opened Congruence
  import opened GfP2

  datatype F6 = F6(x: F2, y: F2, z: F2)

  const Zero6 := F6(Zero2, Zero2, Zero2)
  const One6 := F6(Zero2, Zero2, One2)

  function Plus6(a: F6, b: F6): F6 {
    F6(Plus2(a.x, b.x), Plus2(a.y, b.y), Plus2(a.z, b.z))
  }

  function Minus6(a: F6, b: F6): F6 {
    F6(Minus2(a.x, b.x), Minus2(a.y, b.y), Minus2(a.z, b.z))
  }

  /** The product with tau: MulTau. */
  function Tau(a: F6): F6 {
    F6(a.y, a.z, Xi(a.x))
  }

  function Scale6(mul: Product2, a: F6, k: F2): F6 {
    F6(mul(a.x, k), mul(a.y, k), mul(a.z, k))
  }

  function X6(mul: Product2, a: F6, b: F6): F2 {
    Plus2(Plus2(mul(a.x, b.z), mul(a.y, b.y)), mul(a.z, b.x))
  }

  function Y6(mul: Product2, a: F6, b: F6): F2 {
    Plus2(Plus2(mul(a.y, b.z), mul(a.z, b.y)), Xi(mul(a.x, b.x)))
  }

  function Z6(mul: Product2, a: F6, b: F6): F2 {
    Plus2(mul(a.z, b.z), Xi(Plus2(mul(a.x, b.y), mul(a.y, b.x))))
  }

  /** The product, coefficient by coefficient, with tau^3 = xi and tau^4 = xi*tau. */
  function Times6(mul: Product2, a: F6, b: F6): F6 {
    F6(X6(mul, a, b), Y6(mul, a, b), Z6(mul, a, b))
  }

  // ---------------------------------------------------------------- associativity

  lemma SumTimes(mul: Product2, a: F2, b: F2, c: F2, d: F2)
    requires Laws2(mul)
    ensures mul(Plus2(Plus2(a, b), c), d) == Plus2(Plus2(mul(a, d), mul(b, d)), mul(c, d))
    ensures mul(d, Plus2(Plus2(a, b), c)) == Plus2(Plus2(mul(d, a), mul(d, b)), mul(d, c))
  {
    Dist2(mul, Plus2(a, b), c, d);
    Dist2(mul, a, b, d);
  }

  lemma LeftX(mul: Product2, a: F6, b: F6, c: F2)
    requires Laws2(mul)
    ensures mul(X6(mul, a, b), c) == Plus2(Plus2(mul(a.x, mul(b.z, c)), mul(a.y, mul(b.y, c))), mul(a.z, mul(b.x, c)))
  {
    SumTimes(mul, mul(a.x, b.z), mul(a.y, b.y), mul(a.z, b.x), c);
    Assoc2(mul, a.x, b.z, c);
    Assoc2(mul, a.y, b.y, c);
    Assoc2(mul, a.z, b.x, c);
  }

  lemma LeftY(mul: Product2, a: F6, b: F6, c: F2)
    requires Laws2(mul)
    ensures mul(Y6(mul, a, b), c) == Plus2(Plus2(mul(a.y, mul(b.z, c)), mul(a.z, mul(b.y, c))),
            Xi(mul(a.x, mul(b.x, c))))
  {
    SumTimes(mul, mul(a.y, b.z), mul(a.z, b.y), Xi(mul(a.x, b.x)), c);
    XiMul2(mul, mul(a.x, b.x), c);
    Assoc2(mul, a.y, b.z, c);
    Assoc2(mul, a.z, b.y, c);
    Assoc2(mul, a.x, b.x, c);
  }

  lemma LeftZ(mul: Product2, a: F6, b: F6, c: F2)
    requires Laws2(mul)
    ensures mul(Z6(mul, a, b), c) == Plus2(mul(a.z, mul(b.z, c)),
            Xi(Plus2(mul(a.x, mul(b.y, c)), mul(a.y, mul(b.x, c)))))
  {
    var s := Plus2(mul(a.x, b.y), mul(a.y, b.x));
    Dist2(mul, mul(a.z, b.z), Xi(s), c);
    XiMul2(mul, s, c);
    Dist2(mul, mul(a.x, b.y), mul(a.y, b.x), c);
    Assoc2(mul, a.z, b.z, c);
    Assoc2(mul, a.x, b.y, c);
    Assoc2(mul, a.y, b.x, c);
  }

  lemma RightX(mul: Product2, a: F2, b: F6, c: F6)
    requires Laws2(mul)
    ensures mul(a, X6(mul, b, c)) == Plus2(Plus2(mul(a, mul(b.x, c.z)), mul(a, mul(b.y, c.y))), mul(a, mul(b.z, c.x)))
  {
    SumTimes(mul, mul(b.x, c.z), mul(b.y, c.y), mul(b.z, c.x), a);
  }

  lemma RightY(mul: Product2, a: F2, b: F6, c: F6)
    requires Laws2(mul)
    ensures mul(a, Y6(mul, b, c)) == Plus2(Plus2(mul(a, mul(b.y, c.z)), mul(a, mul(b.z, c.y))),
            Xi(mul(a, mul(b.x, c.x))))
  {
    SumTimes(mul, mul(b.y, c.z), mul(b.z, c.y), Xi(mul(b.x, c.x)), a);
    XiMul2(mul, mul(b.x, c.x), a);
  }

  lemma RightZ(mul: Product2, a: F2, b: F6, c: F6)
    requires Laws2(mul)
    ensures mul(a, Z6(mul, b, c)) == Plus2(mul(a, mul(b.z, c.z)),
            Xi(Plus2(mul(a, mul(b.x, c.y)), mul(a, mul(b.y, c.x)))))
  {
    var s := Plus2(mul(b.x, c.y), mul(b.y, c.x));
    Dist2(mul, mul(b.z, c.z), Xi(s), a);
    XiMul2(mul, s, a);
    Dist2(mul, mul(b.x, c.y), mul(b.y, c.x), a);
  }

  lemma AssocX(mul: Product2, a: F6, b: F6, c: F6)
    requires Laws2(mul)
    ensures X6(mul, Times6(mul, a, b), c) == X6(mul, a, Times6(mul, b, c))
  {
    LeftX(mul, a, b, c.z);
    LeftY(mul, a, b, c.y);
    LeftZ(mul, a, b, c.x);
    RightZ(mul, a.x, b, c);
    RightY(mul, a.y, b, c);
    RightX(mul, a.z, b, c);
  }

  lemma AssocY(mul: Product2, a: F6, b: F6, c: F6)
    requires Laws2(mul)
    ensures Y6(mul, Times6(mul, a, b), c) == Y6(mul, a, Times6(mul, b, c))
  {
    LeftY(mul, a, b, c.z);
    LeftZ(mul, a, b, c.y);
    LeftX(mul, a, b, c.x);
    RightZ(mul, a.y, b, c);
    RightY(mul, a.z, b, c);
    RightX(mul, a.x, b, c);
  }

  lemma AssocZ(mul: Product2, a: F6, b: F6, c: F6)
    requires Laws2(mul)
    ensures Z6(mul, Times6(mul, a, b), c) == Z6(mul, a, Times6(mul, b, c))
  {
    LeftZ(mul, a, b, c.z);
    LeftX(mul, a, b, c.y);
    LeftY(mul, a, b, c.x);
    RightZ(mul, a.z, b, c);
    RightY(mul, a.x, b, c);
    RightX(mul, a.y, b, c);
  }

  // ---------------------------------------------------------------- the other laws

  lemma Dist6Of(mul: Product2, a: F6, b: F6, c: F6)
    requires Laws2(mul)
    ensures Times6(mul, Plus6(a, b), c) == Plus6(Times6(mul, a, c), Times6(mul, b, c))
  {
    Dist2(mul, a.x, b.x, c.x);
    Dist2(mul, a.x, b.x, c.y);
    Dist2(mul, a.x, b.x, c.z);
    Dist2(mul, a.y, b.y, c.x);
    Dist2(mul, a.y, b.y, c.y);
    Dist2(mul, a.y, b.y, c.z);
    Dist2(mul, a.z, b.z, c.x);
    Dist2(mul, a.z, b.z, c.y);
    Dist2(mul, a.z, b.z, c.z);
  }

  lemma Comm6Of(mul: Product2, a: F6, b: F6)
    requires Laws2(mul)
    ensures Times6(mul, a, b) == Times6(mul, b, a)
  {
    Comm2(mul, a.x, b.x);
    Comm2(mul, a.x, b.y);
    Comm2(mul, a.x, b.z);
    Comm2(mul, a.y, b.x);
    Comm2(mul, a.y, b.y);
    Comm2(mul, a.y, b.z);
    Comm2(mul, a.z, b.x);
    Comm2(mul, a.z, b.y);
    Comm2(mul, a.z, b.z);
  }

  lemma Tau6Of(mul: Product2, a: F6, b: F6)
    requires Laws2(mul)
    ensures Times6(mul, Tau(a), b) == Tau(Times6(mul, a, b))
  {
    XiMul2(mul, a.x, b.x);
    XiMul2(mul, a.x, b.y);
    XiMul2(mul, a.x, b.z);
  }

  lemma Unit6Of(mul: Product2, a: F6)
    requires Laws2(mul)
    ensures Times6(mul, One6, a) == a
  {
    UnitOf(mul, F6(Zero2, Zero2, One2), a);
  }

  lemma UnitOf(mul: Product2, one: F6, a: F6)
    requires Laws2(mul) && one.x == Zero2 && one.y == Zero2 && one.z == One2
    ensures Times6(mul, one, a) == a
  {
    ZeroMul2(mul, a.x);
    ZeroMul2(mul, a.y);
    ZeroMul2(mul, a.z);
    Unit2(mul, a.x);
    Unit2(mul, a.y);
    Unit2(mul, a.z);
    assert X6(mul, one, a) == a.x;
    assert Y6(mul, one, a) == a.y;
    assert Z6(mul, one, a) == a.z;
  }

  lemma Scale6Of(mul: Product2, a: F6, b: F6, k: F2)
    requires Laws2(mul)
    ensures Times6(mul, a, Scale6(mul, b, k)) == Scale6(mul, Times6(mul, a, b), k)
  {
    LeftX(mul, a, b, k);
    LeftY(mul, a, b, k);
    LeftZ(mul, a, b, k);
  }

  // ---------------------------------------------------------------- Karatsuba and inversion

  /** Six multiplications instead of nine. */
  function Karatsuba(mul: Product2, a: F6, b: F6): F6 {
    var v0, v1, v2 := mul(a.z, b.z), mul(a.y, b.y), mul(a.x, b.x);
    var tz := Minus2(Minus2(mul(Plus2(a.x, a.y), Plus2(b.x, b.y)), v1), v2);
    var ty := Minus2(Minus2(mul(Plus2(a.y, a.z), Plus2(b.y, b.z)), v0), v1);
    var tx := Minus2(mul(Plus2(a.x, a.z), Plus2(b.x, b.z)), v0);
    F6(Minus2(Plus2(tx, v1), v2), Plus2(ty, Xi(v2)), Plus2(Xi(tz), v0))
  }

  lemma FourProducts(mul: Product2, a: F2, b: F2, c: F2, d: F2)
    requires Laws2(mul)
    ensures mul(Plus2(a, b), Plus2(c, d)) == Plus2(Plus2(mul(a, c), mul(a, d)), Plus2(mul(b, c), mul(b, d)))
  {
    Dist2(mul, a, b, Plus2(c, d));
    Dist2(mul, c, d, a);
    Dist2(mul, c, d, b);
  }

  lemma KaratsubaIsTimes(mul: Product2, a: F6, b: F6)
    requires Laws2(mul)
    ensures Karatsuba(mul, a, b) == Times6(mul, a, b)
  {
    FourProducts(mul, a.x, a.y, b.x, b.y);
    FourProducts(mul, a.y, a.z, b.y, b.z);
    FourProducts(mul, a.x, a.z, b.x, b.z);
  }

  /** The cofactor of a, whose product with a lies in the field below. */
  function Cofactor(mul: Product2, a: F6): F6 {
    F6(Minus2(mul(a.y, a.y), mul(a.x, a.z)),
       Minus2(Xi(mul(a.x, a.x)), mul(a.y, a.z)),
       Minus2(mul(a.z, a.z), Xi(mul(a.x, a.y))))
  }

  function Norm6(mul: Product2, a: F6): F2 {
    var c := Cofactor(mul, a);
    Plus2(Plus2(Xi(mul(c.x, a.y)), mul(c.z, a.z)), Xi(mul(c.y, a.x)))
  }

  /** Three factors in any order. */
  lemma Triple(mul: Product2, a: F2, b: F2, c: F2)
    requires Laws2(mul)
    ensures mul(a, mul(b, c)) == mul(mul(a, b), c) && mul(mul(a, b), c) == mul(mul(b, a), c)
    ensures mul(a, mul(b, c)) == mul(b, mul(a, c)) && mul(a, mul(b, c)) == mul(a, mul(c, b))
  {
    Assoc2(mul, a, b, c);
    Assoc2(mul, b, a, c);
    Comm2(mul, a, b);
    Comm2(mul, b, c);
  }

  lemma CofactorTerms(mul: Product2, k: F2, a: F6)
    requires Laws2(mul)
    ensures var c := Cofactor(mul, a);
            && mul(k, c.x) == Minus2(mul(k, mul(a.y, a.y)), mul(k, mul(a.x, a.z)))
            && mul(k, c.y) == Minus2(Xi(mul(k, mul(a.x, a.x))), mul(k, mul(a.y, a.z)))
            && mul(k, c.z) == Minus2(mul(k, mul(a.z, a.z)), Xi(mul(k, mul(a.x, a.y))))
  {
    DistMinus2(mul, mul(a.y, a.y), mul(a.x, a.z), k);
    DistMinus2(mul, Xi(mul(a.x, a.x)), mul(a.y, a.z), k);
    DistMinus2(mul, mul(a.z, a.z), Xi(mul(a.x, a.y)), k);
    XiMul2(mul, mul(a.x, a.x), k);
    XiMul2(mul, mul(a.x, a.y), k);
  }

  lemma CofactorTimes(mul: Product2, a: F6)
    requires Laws2(mul)
    ensures Times6(mul, a, Cofactor(mul, a)) == F6(Zero2, Zero2, Norm6(mul, a))
  {
    var c := Cofactor(mul, a);
    CofactorTerms(mul, a.x, a);
    CofactorTerms(mul, a.y, a);
    CofactorTerms(mul, a.z, a);
    Triple(mul, a.x, a.y, a.z);
    Triple(mul, a.y, a.x, a.z);
    Triple(mul, a.z, a.x, a.y);
    Triple(mul, a.x, a.y, a.y);
    Triple(mul, a.y, a.x, a.y);
    Triple(mul, a.x, a.z, a.z);
    Triple(mul, a.z, a.x, a.z);
    Triple(mul, a.y, a.x, a.x);
    Triple(mul, a.x, a.y, a.x);
    Triple(mul, a.z, a.x, a.x);
    Triple(mul, a.x, a.z, a.x);
    Triple(mul, a.y, a.z, a.z);
    Triple(mul, a.z, a.y, a.z);
    Triple(mul, a.z, a.y, a.y);
    Triple(mul, a.y, a.z, a.y);
    Comm2(mul, c.x, a.y);
    Comm2(mul, c.y, a.x);
    Comm2(mul, c.z, a.z);
    assert X6(mul, a, c) == Zero2;
    assert Y6(mul, a, c) == Zero2;
    assert Z6(mul, a, c) == Norm6(mul, a);
  }

  // ---------------------------------------------------------------- congruence

  ghost predicate Cong6(p: int, a: F6, b: F6) {
    Cong2(p, a.x, b.x) && Cong2(p, a.y, b.y) && Cong2(p, a.z, b.z)
  }

  lemma Same6(p: int, a: F6)
    ensures Cong6(p, a, a)
  {
    Same2(p, a.x);
    Same2(p, a.y);
    Same2(p, a.z);
  }

  lemma Chain6(p: int, a: F6, b: F6, c: F6)
    requires Cong6(p, a, b) && Cong6(p, b, c)
    ensures Cong6(p, a, c)
  {
    Chain2(p, a.x, b.x, c.x);
    Chain2(p, a.y, b.y, c.y);
    Chain2(p, a.z, b.z, c.z);
  }

  lemma CongPlus6(p: int, a: F6, b: F6, c: F6, d: F6)
    requires Cong6(p, a, b) && Cong6(p, c, d)
    ensures Cong6(p, Plus6(a, c), Plus6(b, d))
  {
    CongPlus2(p, a.x, b.x, c.x, d.x);
    CongPlus2(p, a.y, b.y, c.y, d.y);
    CongPlus2(p, a.z, b.z, c.z, d.z);
  }

  lemma CongMinus6(p: int, a: F6, b: F6, c: F6, d: F6)
    requires Cong6(p, a, b) && Cong6(p, c, d)
    ensures Cong6(p, Minus6(a, c), Minus6(b, d))
  {
    CongMinus2(p, a.x, b.x, c.x, d.x);
    CongMinus2(p, a.y, b.y, c.y, d.y);
    CongMinus2(p, a.z, b.z, c.z, d.z);
  }

  lemma CongTau(p: int, a: F6, b: F6)
    requires Cong6(p, a, b)
    ensures Cong6(p, Tau(a), Tau(b))
  {
    CongXi(p, a.x, b.x);
  }

  /** Two products that agree modulo p on congruent factors. */
  ghost predicate Agree(p: int, m: Product2, n: Product2) {
    forall a, b, c, d {:trigger m(a, c), n(b, d)} :: Cong2(p, a, b) && Cong2(p, c, d) ==> Cong2(p, m(a, c), n(b, d))
  }

  lemma CongTimes6(p: int, m: Product2, n: Product2, a: F6, b: F6, c: F6, d: F6)
    requires Agree(p, m, n) && Cong6(p, a, b) && Cong6(p, c, d)
    ensures Cong6(p, Times6(m, a, c), Times6(n, b, d))
  {
    CongPlus2(p, m(a.x, c.z), n(b.x, d.z), m(a.y, c.y), n(b.y, d.y));
    CongPlus2(p, Plus2(m(a.x, c.z), m(a.y, c.y)), Plus2(n(b.x, d.z), n(b.y, d.y)), m(a.z, c.x), n(b.z, d.x));
    CongPlus2(p, m(a.y, c.z), n(b.y, d.z), m(a.z, c.y), n(b.z, d.y));
    CongXi(p, m(a.x, c.x), n(b.x, d.x));
    CongPlus2(p, Plus2(m(a.y, c.z), m(a.z, c.y)), Plus2(n(b.y, d.z), n(b.z, d.y)), Xi(m(a.x, c.x)), Xi(n(b.x, d.x)));
    CongPlus2(p, m(a.x, c.y), n(b.x, d.y), m(a.y, c.x), n(b.y, d.x));
    CongXi(p, Plus2(m(a.x, c.y), m(a.y, c.x)), Plus2(n(b.x, d.y), n(b.y, d.x)));
    CongPlus2(p, m(a.z, c.z), n(b.z, d.z), Xi(Plus2(m(a.x, c.y), m(a.y, c.x))), Xi(Plus2(n(b.x, d.y), n(b.y, d.x))));
  }

  /** (a + b)(c + d) - u - v, as all three coefficients of the Karatsuba product have it. */
  lemma CongCross(p: int, m: Product2, n: Product2, s: F2, t: F2, u: F2, u': F2, v: F2, v': F2)
    requires Agree(p, m, n) && Cong2(p, u, u') && Cong2(p, v, v')
    ensures Cong2(p, Minus2(Minus2(m(s, t), u), v), Minus2(Minus2(n(s, t), u'), v'))
    ensures Cong2(p, Minus2(m(s, t), u), Minus2(n(s, t), u'))
  {
    Same2(p, s);
    Same2(p, t);
    CongMinus2(p, m(s, t), n(s, t), u, u');
    CongMinus2(p, Minus2(m(s, t), u), Minus2(n(s, t), u'), v, v');
  }

  lemma CongKaratsuba(p: int, m: Product2, n: Product2, a: F6, b: F6)
    requires Agree(p, m, n)
    ensures Cong6(p, Karatsuba(m, a, b), Karatsuba(n, a, b))
  {
    Same6(p, a);
    Same6(p, b);
    var v0, v1, v2 := m(a.z, b.z), m(a.y, b.y), m(a.x, b.x);
    var w0, w1, w2 := n(a.z, b.z), n(a.y, b.y), n(a.x, b.x);
    CongCross(p, m, n, Plus2(a.x, a.y), Plus2(b.x, b.y), v1, w1, v2, w2);
    CongCross(p, m, n, Plus2(a.y, a.z), Plus2(b.y, b.z), v0, w0, v1, w1);
    CongCross(p, m, n, Plus2(a.x, a.z), Plus2(b.x, b.z), v0, w0, v1, w1);
    KaratsubaParts(p, m, n, a, b);
  }

  lemma KaratsubaParts(p: int, m: Product2, n: Product2, a: F6, b: F6)
    requires var v0, v1, v2 := m(a.z, b.z), m(a.y, b.y), m(a.x, b.x);
             var w0, w1, w2 := n(a.z, b.z), n(a.y, b.y), n(a.x, b.x);
             && Cong2(p, v0, w0) && Cong2(p, v1, w1) && Cong2(p, v2, w2)
             && Cong2(p, Minus2(Minus2(m(Plus2(a.x, a.y), Plus2(b.x, b.y)), v1), v2),
                 Minus2(Minus2(n(Plus2(a.x, a.y), Plus2(b.x, b.y)), w1), w2))
             && Cong2(p, Minus2(Minus2(m(Plus2(a.y, a.z), Plus2(b.y, b.z)), v0), v1),
                 Minus2(Minus2(n(Plus2(a.y, a.z), Plus2(b.y, b.z)), w0), w1))
             && Cong2(p, Minus2(m(Plus2(a.x, a.z), Plus2(b.x, b.z)), v0),
                 Minus2(n(Plus2(a.x, a.z), Plus2(b.x, b.z)), w0))
    ensures Cong6(p, Karatsuba(m, a, b), Karatsuba(n, a, b))
  {
    var v0, v1, v2 := m(a.z, b.z), m(a.y, b.y), m(a.x, b.x);
    var w0, w1, w2 := n(a.z, b.z), n(a.y, b.y), n(a.x, b.x);
    var tz, uz := Minus2(Minus2(m(Plus2(a.x, a.y), Plus2(b.x, b.y)), v1), v2),
        Minus2(Minus2(n(Plus2(a.x, a.y), Plus2(b.x, b.y)), w1), w2);
    var ty, uy := Minus2(Minus2(m(Plus2(a.y, a.z), Plus2(b.y, b.z)), v0), v1),
        Minus2(Minus2(n(Plus2(a.y, a.z), Plus2(b.y, b.z)), w0), w1);
    var tx, ux := Minus2(m(Plus2(a.x, a.z), Plus2(b.x, b.z)), v0), Minus2(n(Plus2(a.x, a.z), Plus2(b.x, b.z)), w0);
    CongXi(p, tz, uz);
    CongPlus2(p, Xi(tz), Xi(uz), v0, w0);
    CongXi(p, v2, w2);
    CongPlus2(p, ty, uy, Xi(v2), Xi(w2));
    CongPlus2(p, tx, ux, v1, w1);
    CongMinus2(p, Plus2(tx, v1), Plus2(ux, w1), v2, w2);
  }

  // ---------------------------------------------------------------- the code

  function Below(p: int): Product2
    requires p > 0
  {
    (u, v) => Mul2(p, u, v)
  }

  function Exact6(a: F6, b: F6): F6 {
    Times6(Times2, a, b)
  }

  lemma BelowAgrees(p: int)
    requires p > 0
    ensures Agree(p, Below(p), Times2)
  {
    forall a, b, c, d | Cong2(p, a, b) && Cong2(p, c, d) ensures Cong2(p, Mul2(p, a, c), Times2(b, d)) {
      Mul2Correct(p, a, c);
      CongTimes2(p, a, b, c, d);
      Chain2(p, Mul2(p, a, c), Times2(a, c), Times2(b, d));
    }
  }

  function Mul6(p: int, a: F6, b: F6): F6
    requires p > 0
  {
    Karatsuba(Below(p), a, b)
  }

  /** Mul computes the product modulo p. */
  lemma Mul6Correct(p: int, a: F6, b: F6)
    requires p > 0
    ensures Cong6(p, Mul6(p, a, b), Exact6(a, b))
  {
    BelowAgrees(p);
    CongKaratsuba(p, Below(p), Times2, a, b);
    TimesIsLawful();
    KaratsubaIsTimes(Times2, a, b);
  }

  function Square6(p: int, a: F6): F6
    requires p > 0
  {
    var v0, v1, v2 := Square2(p, a.z), Square2(p, a.y), Square2(p, a.x);
    var c0 := Minus2(Minus2(Square2(p, Plus2(a.x, a.y)), v1), v2);
    var c1 := Minus2(Minus2(Square2(p, Plus2(a.y, a.z)), v0), v1);
    var c2 := Minus2(Square2(p, Plus2(a.x, a.z)), v0);
    F6(Minus2(Plus2(c2, v1), v2), Plus2(c1, Xi(v2)), Plus2(Xi(c0), v0))
  }

  /** Squaring returns exactly what multiplication does. */
  lemma SquareIsMul6(p: int, a: F6)
    requires p > 0
    ensures Square6(p, a) == Mul6(p, a, a)
  {
    SquareIsMul2(p, a.x);
    SquareIsMul2(p, a.y);
    SquareIsMul2(p, a.z);
    SquareIsMul2(p, Plus2(a.x, a.y));
    SquareIsMul2(p, Plus2(a.y, a.z));
    SquareIsMul2(p, Plus2(a.x, a.z));
  }

  function Invert6(p: int, a: F6): F6
    requires p >= 2
  {
    var A := Minus2(Square2(p, a.z), Xi(Mul2(p, a.x, a.y)));
    var B := Minus2(Xi(Square2(p, a.x)), Mul2(p, a.y, a.z));
    var C := Minus2(Square2(p, a.y), Mul2(p, a.x, a.z));
    var F := Plus2(Plus2(Xi(Mul2(p, C, a.y)), Mul2(p, A, a.z)), Xi(Mul2(p, B, a.x)));
    var inv := Invert2(p, F);
    F6(Mul2(p, C, inv), Mul2(p, B, inv), Mul2(p, A, inv))
  }

  /** The norm, as the code computes it, has an inverse. */
  ghost predicate Invertible6(p: int, a: F6) {
    p >= 2 && Invertible2(p, Norm6(Below(p), a))
  }

  lemma InvertIsScaled(p: int, a: F6)
    requires p >= 2
    ensures Invert6(p, a) == Scale6(Below(p), Cofactor(Below(p), a), Invert2(p, Norm6(Below(p), a)))
  {
    SquareIsMul2(p, a.x);
    SquareIsMul2(p, a.y);
    SquareIsMul2(p, a.z);
  }

  lemma CongCofactor(p: int, m: Product2, n: Product2, a: F6)
    requires Agree(p, m, n)
    ensures Cong6(p, Cofactor(m, a), Cofactor(n, a)) && Cong2(p, Norm6(m, a), Norm6(n, a))
  {
    Same6(p, a);
    CongMinus2(p, m(a.y, a.y), n(a.y, a.y), m(a.x, a.z), n(a.x, a.z));
    CongXi(p, m(a.x, a.x), n(a.x, a.x));
    CongMinus2(p, Xi(m(a.x, a.x)), Xi(n(a.x, a.x)), m(a.y, a.z), n(a.y, a.z));
    CongXi(p, m(a.x, a.y), n(a.x, a.y));
    CongMinus2(p, m(a.z, a.z), n(a.z, a.z), Xi(m(a.x, a.y)), Xi(n(a.x, a.y)));
    CongNorm(p, m, n, a, Cofactor(m, a), Cofactor(n, a));
  }

  lemma CongNorm(p: int, m: Product2, n: Product2, a: F6, c: F6, d: F6)
    requires Agree(p, m, n) && Cong6(p, c, d)
    ensures Cong2(p, Plus2(Plus2(Xi(m(c.x, a.y)), m(c.z, a.z)), Xi(m(c.y, a.x))),
            Plus2(Plus2(Xi(n(d.x, a.y)), n(d.z, a.z)), Xi(n(d.y, a.x))))
  {
    Same6(p, a);
    CongXi(p, m(c.x, a.y), n(d.x, a.y));
    CongXi(p, m(c.y, a.x), n(d.y, a.x));
    CongPlus2(p, Xi(m(c.x, a.y)), Xi(n(d.x, a.y)), m(c.z, a.z), n(d.z, a.z));
    CongPlus2(p, Plus2(Xi(m(c.x, a.y)), m(c.z, a.z)), Plus2(Xi(n(d.x, a.y)), n(d.z, a.z)), Xi(m(c.y, a.x)),
        Xi(n(d.y, a.x)));
  }

  lemma CongExact6(p: int, a: F6, b: F6, c: F6, d: F6)
    requires p > 0 && Cong6(p, a, b) && Cong6(p, c, d)
    ensures Cong6(p, Exact6(a, c), Exact6(b, d))
  {
    ExactAgrees(p);
    CongTimes6(p, Times2, Times2, a, b, c, d);
  }

  lemma ExactAgrees(p: int)
    ensures Agree(p, Times2, Times2)
  {
    forall a, b, c, d | Cong2(p, a, b) && Cong2(p, c, d) ensures Cong2(p, Times2(a, c), Times2(b, d)) {
      CongTimes2(p, a, b, c, d);
    }
  }

  /** Inversion: the product with the inverse is one modulo p. */
  lemma Invert6Correct(p: int, a: F6)
    requires Invertible6(p, a)
    ensures Cong6(p, Exact6(a, Invert6(p, a)), One6)
  {
    var f := Norm6(Below(p), a);
    InvertIsScaled(p, a);
    BelowAgrees(p);
    CongCofactor(p, Below(p), Times2, a);
    Invert2Correct(p, f);
    InvertedProduct(p, Below(p), a, f, Invert2(p, f));
  }

  lemma InvertedProduct(p: int, m: Product2, a: F6, f: F2, inv: F2)
    requires p > 0 && Agree(p, m, Times2) && Cong6(p, Cofactor(m, a), Cofactor(Times2, a))
             && Cong2(p, f, Norm6(Times2, a))
    requires Cong2(p, Times2(f, inv), One2)
    ensures Cong6(p, Exact6(a, Scale6(m, Cofactor(m, a), inv)), One6)
  {
    var c, d := Cofactor(m, a), Cofactor(Times2, a);
    var k := Norm6(Times2, a);
    Same2(p, inv);
    assert Cong6(p, Scale6(m, c, inv), Scale6(Times2, d, inv));
    Same6(p, a);
    CongExact6(p, a, a, Scale6(m, c, inv), Scale6(Times2, d, inv));
    TimesIsLawful();
    Scale6Of(Times2, a, d, inv);
    CofactorTimes(Times2, a);
    ScaledNorm(Times2, k, inv);
    Flip2(p, f, k);
    CongTimes2(p, k, f, inv, inv);
    Chain2(p, Times2(k, inv), Times2(f, inv), One2);
    Same2(p, Zero2);
    Chain6(p, Exact6(a, Scale6(m, c, inv)), F6(Zero2, Zero2, Times2(k, inv)), One6);
  }

  lemma ScaledNorm(mul: Product2, k: F2, inv: F2)
    requires Laws2(mul)
    ensures Scale6(mul, F6(Zero2, Zero2, k), inv) == F6(Zero2, Zero2, mul(k, inv))
  {
    ZeroMul2(mul, inv);
  }

  lemma Flip2(p: int, a: F2, b: F2)
    requires Cong2(p, a, b)
    ensures Cong2(p, b, a)
  {
    CongruentFlip(p, a.x, b.x);
    CongruentFlip(p, a.y, b.y);
  }
}
