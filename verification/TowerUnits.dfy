/**
 * Which elements of the bn256 tower have an inverse, and that Invert finds it exactly then. For a prime of
 * the form 4k+3 the quadratic extension is a field; the next two are fields if and only if xi is not a cube
 * and tau is not a square.
 */
module TowerUnits {
  import opened Congruence
  import opened Division
  import opened GfP2
  import opened GfP6
  import opened GfP12
  import Modular
  import Fermat

  // ---------------------------------------------------------------- vanishing modulo p

  ghost predicate Vanishes(p: int, a: F2) {
    Cong2(p, a, Zero2)
  }

  lemma VanishingTimes(p: int, a: F2, b: F2)
    requires Vanishes(p, a)
    ensures Vanishes(p, Times2(a, b)) && Vanishes(p, Times2(b, a))
  {
    Same2(p, b);
    CongTimes2(p, a, Zero2, b, b);
    CongTimes2(p, b, b, a, Zero2);
    TimesIsLawful();
    ZeroMul2(Times2, b);
  }

  lemma VanishingSum(p: int, a: F2, b: F2)
    requires Vanishes(p, a) && Vanishes(p, b)
    ensures Vanishes(p, Plus2(a, b)) && Vanishes(p, Minus2(a, b)) && Vanishes(p, Xi(a))
  {
    CongPlus2(p, a, Zero2, b, Zero2);
    CongMinus2(p, a, Zero2, b, Zero2);
    CongXi(p, a, Zero2);
  }

  lemma VanishingDifference(p: int, a: F2, b: F2)
    ensures Vanishes(p, Minus2(a, b)) <==> Cong2(p, a, b)
  {
    Same2(p, b);
    if Vanishes(p, Minus2(a, b)) {
      CongPlus2(p, Minus2(a, b), Zero2, b, b);
      assert Plus2(Minus2(a, b), b) == a && Plus2(Zero2, b) == b;
    }
    if Cong2(p, a, b) {
      CongMinus2(p, a, b, b, b);
    }
  }

  lemma OneDoesNotVanish(p: int)
    requires p >= 2
    ensures !Vanishes(p, One2)
  {
    if Congruent(p, 1, 0) {
      var k :| 1 == 0 + p * k;
      MultipleIsLarge(k, p);
    }
  }

  // ---------------------------------------------------------------- the quadratic extension

  ghost predicate HasInverse2(p: int, a: F2) {
    exists b :: Cong2(p, Times2(a, b), One2)
  }

  lemma NormTimes(a: F2, b: F2)
    ensures Norm2(Times2(a, b)) == Norm2(a) * Norm2(b)
  {
    NormOfProduct(a.x, a.y, b.x, b.y);
  }

  lemma NormOfProduct(a: int, b: int, c: int, d: int)
    ensures (b * d - a * c) * (b * d - a * c) + (a * d + c * b) * (a * d + c * b) == (b * b + a * a) * (d * d + c * c)
  {
    var r, s, t, u := b * d, a * c, a * d, c * b;
    assert (r - s) * (r - s) == r * r - 2 * (r * s) + s * s;
    assert (t + u) * (t + u) == t * t + 2 * (t * u) + u * u;
    assert r * s == t * u;
    assert (b * b + a * a) * (d * d + c * c) == r * r + u * u + t * t + s * s;
  }

  lemma RemainderOne(p: int, n: int)
    requires p >= 2 && Congruent(p, n, 1)
    ensures n % p == 1
  {
    var k :| n == 1 + p * k;
    UniqueRemainder(n, p, k, 1);
  }

  /** An element has an inverse exactly if its norm has one. */
  lemma UnitIsInvertible2(p: int, a: F2)
    requires p >= 2
    ensures Invertible2(p, a) <==> HasInverse2(p, a)
  {
    if Invertible2(p, a) {
      Invert2Correct(p, a);
    }
    if b :| Cong2(p, Times2(a, b), One2) {
      var c := Times2(a, b);
      CongruentProduct(p, c.x, 0, c.x, 0);
      CongruentProduct(p, c.y, 1, c.y, 1);
      CongruentSum(p, c.y * c.y, 1, c.x * c.x, 0);
      NormTimes(a, b);
      RemainderOne(p, Norm2(a) * Norm2(b));
      Modular.ModProduct(Norm2(b), Norm2(a), p);
      assert Norm2(a) * (Norm2(b) % p) % p == 1;
    }
  }

  /** Invert gives the inverse exactly if there is one, whatever p is. */
  lemma Invert2Iff(p: int, a: F2)
    requires p >= 2
    ensures Cong2(p, Times2(a, Invert2(p, a)), One2) <==> HasInverse2(p, a)
  {
    UnitIsInvertible2(p, a);
    if HasInverse2(p, a) {
      Invert2Correct(p, a);
    }
  }

  predicate GoodPrime(p: int) {
    p >= 2 && Modular.Prime(p) && p % 4 == 3
  }

  lemma ZeroRemainder(p: int, n: int)
    requires p >= 2
    ensures n % p == 0 <==> Congruent(p, n, 0)
  {
    if n % p == 0 {
      CongruentBy(p, n, 0, n / p);
    }
    if k :| n == 0 + p * k {
      UniqueRemainder(n, p, k, 0);
    }
  }

  lemma PrimeInverse(p: nat, n: nat)
    requires Modular.Prime(p) && n % p != 0
    ensures exists v :: 0 <= v < p && n * v % p == 1
  {
    var r := n % p;
    Modular.GcdIsOne(p, r);
    var x, y := Modular.Bezout(p, r);
    Modular.ModShift(y * r, x, p);
    UniqueRemainder(1, p, 0, 1);
    Modular.ModProduct(n, y, p);
    Modular.ModProduct(y, n, p);
    assert n * (y % p) % p == 1;
  }

  /** Modulo a prime of the form 4k+3 every element but zero has an inverse. */
  lemma NonzeroIsUnit2(p: int, a: F2)
    requires GoodPrime(p)
    ensures HasInverse2(p, a) <==> !Vanishes(p, a)
  {
    if Vanishes(p, a) {
      if b :| Cong2(p, Times2(a, b), One2) {
        VanishingTimes(p, a, b);
        Flip2(p, Times2(a, b), One2);
        Chain2(p, One2, Times2(a, b), Zero2);
        OneDoesNotVanish(p);
      }
    } else {
      Fermat.TwoSquares(p, a.y, a.x);
      ZeroRemainder(p, a.x);
      ZeroRemainder(p, a.y);
      PrimeInverse(p, Norm2(a));
      UnitIsInvertible2(p, a);
    }
  }

  lemma Cancel2(p: int, a: F2, t: F2, b: F2)
    requires Cong2(p, Times2(a, t), One2) && Vanishes(p, Times2(a, b))
    ensures Vanishes(p, b)
  {
    TimesIsLawful();
    VanishingTimes(p, Times2(a, b), t);
    Triple(Times2, a, b, t);
    Comm2(Times2, b, t);
    Assoc2(Times2, a, t, b);
    Same2(p, b);
    CongTimes2(p, Times2(a, t), One2, b, b);
    OneTimes(b);
    Flip2(p, Times2(Times2(a, t), b), b);
    Chain2(p, b, Times2(Times2(a, t), b), Zero2);
  }

  lemma OneTimes(b: F2)
    ensures Times2(One2, b) == b
  {
    TimesIsLawful();
    Unit2(Times2, b);
  }

  lemma NoZeroDivisors2(p: int, a: F2, b: F2)
    requires GoodPrime(p) && Vanishes(p, Times2(a, b))
    ensures Vanishes(p, a) || Vanishes(p, b)
  {
    NonzeroIsUnit2(p, a);
    if t :| Cong2(p, Times2(a, t), One2) {
      Cancel2(p, a, t, b);
    }
  }

  // ---------------------------------------------------------------- identities in the cubic extension

  /** Four factors in the orders in which they come up. */
  lemma Quadruple(mul: Product2, a: F2, b: F2, c: F2, d: F2)
    requires Laws2(mul)
    ensures mul(mul(a, b), mul(c, d)) == mul(a, mul(b, mul(c, d))) == mul(a, mul(mul(b, c), d))
    ensures mul(mul(a, b), mul(c, d)) == mul(mul(a, c), mul(b, d))
  {
    Assoc2(mul, a, b, mul(c, d));
    Assoc2(mul, b, c, d);
    Assoc2(mul, a, c, mul(b, d));
    Triple(mul, b, c, d);
  }

  lemma TwoDifferences(mul: Product2, a: F2, b: F2, c: F2, d: F2)
    requires Laws2(mul)
    ensures mul(Minus2(a, b), Minus2(c, d)) == Plus2(Minus2(Minus2(mul(a, c), mul(a, d)), mul(b, c)), mul(b, d))
  {
    DistMinus2(mul, a, b, Minus2(c, d));
    DistMinus2(mul, c, d, a);
    DistMinus2(mul, c, d, b);
  }

  /** y^3 - xi*x^3 comes from the cofactor. */
  lemma CubeDifference(mul: Product2, a: F6)
    requires Laws2(mul)
    ensures var c := Cofactor(mul, a);
            Minus2(mul(a.y, mul(a.y, a.y)), Xi(mul(a.x, mul(a.x, a.x)))) == Minus2(mul(a.y, c.x), mul(a.x, c.y))
  {
    CofactorTerms(mul, a.y, a);
    CofactorTerms(mul, a.x, a);
    Triple(mul, a.y, a.x, a.z);
  }

  /** a.k times the norm, term by term. */
  lemma TimesNorm(mul: Product2, k: F2, a: F6)
    requires Laws2(mul)
    ensures var c := Cofactor(mul, a);
            mul(k, Norm6(mul, a)) == Plus2(Plus2(Xi(mul(k, mul(c.x, a.y))), mul(k, mul(c.z, a.z))),
                Xi(mul(k, mul(c.y, a.x))))
  {
    var c := Cofactor(mul, a);
    SumTimes(mul, Xi(mul(c.x, a.y)), mul(c.z, a.z), Xi(mul(c.y, a.x)), k);
    XiMul2(mul, mul(c.x, a.y), k);
    XiMul2(mul, mul(c.y, a.x), k);
  }

  lemma CofactorProducts(mul: Product2, k: F2, a: F6)
    requires Laws2(mul)
    ensures var c := Cofactor(mul, a);
            && mul(k, mul(c.x, a.y)) == Minus2(mul(k, mul(mul(a.y, a.y), a.y)), mul(k, mul(mul(a.x, a.z), a.y)))
            && mul(k, mul(c.z, a.z)) == Minus2(mul(k, mul(mul(a.z, a.z), a.z)), Xi(mul(k, mul(mul(a.x, a.y), a.z))))
            && mul(k, mul(c.y, a.x)) == Minus2(Xi(mul(k, mul(mul(a.x, a.x), a.x))), mul(k, mul(mul(a.y, a.z), a.x)))
  {
    DistMinus2(mul, mul(a.y, a.y), mul(a.x, a.z), a.y);
    DistMinus2(mul, mul(mul(a.y, a.y), a.y), mul(mul(a.x, a.z), a.y), k);
    DistMinus2(mul, mul(a.z, a.z), Xi(mul(a.x, a.y)), a.z);
    XiMul2(mul, mul(a.x, a.y), a.z);
    DistMinus2(mul, mul(mul(a.z, a.z), a.z), Xi(mul(mul(a.x, a.y), a.z)), k);
    XiMul2(mul, mul(mul(a.x, a.y), a.z), k);
    DistMinus2(mul, Xi(mul(a.x, a.x)), mul(a.y, a.z), a.x);
    XiMul2(mul, mul(a.x, a.x), a.x);
    DistMinus2(mul, Xi(mul(mul(a.x, a.x), a.x)), mul(mul(a.y, a.z), a.x), k);
    XiMul2(mul, mul(mul(a.x, a.x), a.x), k);
  }

  /** The cofactor of the cofactor is a multiple of the norm, here in its first two coefficients. */
  lemma CofactorTwiceX(mul: Product2, a: F6)
    requires Laws2(mul)
    ensures Cofactor(mul, Cofactor(mul, a)).x == mul(a.x, Norm6(mul, a))
  {
    var x, y, z := a.x, a.y, a.z;
    var A, B, D, E, F, G := mul(x, x), mul(y, z), mul(y, y), mul(x, z), mul(z, z), mul(x, y);
    TwoDifferences(mul, Xi(A), B, Xi(A), B);
    TwoDifferences(mul, D, E, F, Xi(G));
    XiMul2(mul, A, Xi(A));
    XiMul2(mul, A, A);
    XiMul2(mul, A, B);
    XiMul2(mul, G, D);
    XiMul2(mul, G, E);
    Comm2(mul, A, B);
    Quadruple(mul, y, z, y, z);
    Quadruple(mul, x, z, x, y);
    Comm2(mul, z, y);
    TimesNorm(mul, x, a);
    CofactorProducts(mul, x, a);
    QuarticX(mul, x, y, z);
  }

  lemma QuarticX(mul: Product2, x: F2, y: F2, z: F2)
    requires Laws2(mul)
    ensures mul(x, mul(mul(y, y), y)) == mul(mul(y, y), mul(x, y))
    ensures mul(x, mul(mul(x, z), y)) == mul(mul(x, x), mul(y, z))
    ensures mul(x, mul(mul(z, z), z)) == mul(mul(x, z), mul(z, z))
    ensures mul(x, mul(mul(x, y), z)) == mul(mul(x, x), mul(y, z))
    ensures mul(x, mul(mul(x, x), x)) == mul(mul(x, x), mul(x, x))
    ensures mul(x, mul(mul(y, z), x)) == mul(mul(x, x), mul(y, z))
  {
    Triple(mul, x, mul(y, y), y);
    Quadruple(mul, x, x, z, y);
    Comm2(mul, z, y);
    Quadruple(mul, x, z, z, z);
    Assoc2(mul, z, z, z);
    Quadruple(mul, x, x, y, z);
    Quadruple(mul, x, x, x, x);
    Triple(mul, x, mul(y, z), x);
    Comm2(mul, mul(y, z), mul(x, x));
  }

  lemma CofactorTwiceY(mul: Product2, a: F6)
    requires Laws2(mul)
    ensures Cofactor(mul, Cofactor(mul, a)).y == mul(a.y, Norm6(mul, a))
  {
    var x, y, z := a.x, a.y, a.z;
    var A, B, D, E, F, G := mul(x, x), mul(y, z), mul(y, y), mul(x, z), mul(z, z), mul(x, y);
    TwoDifferences(mul, D, E, D, E);
    TwoDifferences(mul, Xi(A), B, F, Xi(G));
    XiMul2(mul, A, F);
    XiMul2(mul, A, Xi(G));
    XiMul2(mul, G, A);
    XiMul2(mul, G, B);
    Comm2(mul, D, E);
    Quadruple(mul, x, x, z, z);
    TimesNorm(mul, y, a);
    CofactorProducts(mul, y, a);
    QuarticY(mul, x, y, z);
  }

  lemma QuarticY(mul: Product2, x: F2, y: F2, z: F2)
    requires Laws2(mul)
    ensures mul(y, mul(mul(y, y), y)) == mul(mul(y, y), mul(y, y))
    ensures mul(y, mul(mul(x, z), y)) == mul(mul(y, y), mul(x, z))
    ensures mul(y, mul(mul(z, z), z)) == mul(mul(y, z), mul(z, z))
    ensures mul(y, mul(mul(x, y), z)) == mul(mul(y, y), mul(x, z)) == mul(mul(y, z), mul(x, y))
    ensures mul(y, mul(mul(x, x), x)) == mul(mul(x, x), mul(x, y))
    ensures mul(y, mul(mul(y, z), x)) == mul(mul(y, y), mul(x, z))
  {
    Quadruple(mul, y, y, y, y);
    Triple(mul, y, mul(x, z), y);
    Comm2(mul, mul(x, z), mul(y, y));
    Quadruple(mul, y, z, z, z);
    Assoc2(mul, z, z, z);
    Quadruple(mul, y, y, x, z);
    Comm2(mul, x, y);
    Quadruple(mul, y, x, y, z);
    Quadruple(mul, y, z, x, y);
    Comm2(mul, mul(x, y), z);
    Triple(mul, y, mul(x, x), x);
    Quadruple(mul, y, y, z, x);
    Comm2(mul, z, x);
    Assoc2(mul, y, mul(x, y), z);
    Comm2(mul, mul(x, y), mul(y, z));
    Assoc2(mul, x, y, mul(y, z));
  }

  // ---------------------------------------------------------------- the cubic extension

  function Cube(a: F2): F2 {
    Times2(a, Times2(a, a))
  }

  /** xi has a cube root modulo p. */
  ghost predicate XiIsCube(p: int) {
    exists w :: Cong2(p, Cube(w), Xi(One2))
  }

  lemma CubeOfProduct(mul: Product2, v: F2, t: F2)
    requires Laws2(mul)
    ensures var w := mul(v, t); mul(w, mul(w, w)) == mul(mul(v, mul(v, v)), mul(t, mul(t, t)))
  {
    Quadruple(mul, v, t, v, t);
    Quadruple(mul, v, t, mul(v, v), mul(t, t));
  }

  lemma CongCube(p: int, a: F2, b: F2)
    requires Cong2(p, a, b)
    ensures Cong2(p, Cube(a), Cube(b))
  {
    CongTimes2(p, a, b, a, b);
    CongTimes2(p, a, b, Times2(a, a), Times2(b, b));
  }

  /** v/u is a cube root of xi if v^3 = xi*u^3. */
  lemma CubeRoot(p: int, u: F2, v: F2)
    requires GoodPrime(p) && !Vanishes(p, u) && Vanishes(p, Minus2(Cube(v), Xi(Cube(u))))
    ensures XiIsCube(p)
  {
    NonzeroIsUnit2(p, u);
    var t :| Cong2(p, Times2(u, t), One2);
    var w := Times2(v, t);
    TimesIsLawful();
    CubeOfProduct(Times2, v, t);
    CubeOfProduct(Times2, u, t);
    XiMul2(Times2, Cube(u), Cube(t));
    VanishingDifference(p, Cube(v), Xi(Cube(u)));
    Same2(p, Cube(t));
    CongTimes2(p, Cube(v), Xi(Cube(u)), Cube(t), Cube(t));
    CongCube(p, Times2(u, t), One2);
    OneTimes(One2);
    CongXi(p, Cube(Times2(u, t)), One2);
    Chain2(p, Cube(w), Xi(Cube(Times2(u, t))), Xi(One2));
  }

  ghost predicate Vanishes6(p: int, a: F6) {
    Cong6(p, a, Zero6)
  }

  lemma SquareVanishes(p: int, a: F2)
    requires GoodPrime(p) && Vanishes(p, Times2(a, a))
    ensures Vanishes(p, a)
  {
    NoZeroDivisors2(p, a, a);
  }

  /** The cofactor vanishes only at zero, unless xi is a cube. */
  lemma CofactorVanishes(p: int, a: F6)
    requires GoodPrime(p) && !XiIsCube(p)
    requires var c := Cofactor(Times2, a); Vanishes(p, c.x) && Vanishes(p, c.y)
    ensures Vanishes(p, a.x) && Vanishes(p, a.y)
  {
    var c := Cofactor(Times2, a);
    TimesIsLawful();
    CubeDifference(Times2, a);
    VanishingTimes(p, c.x, a.y);
    VanishingTimes(p, c.y, a.x);
    VanishingSum(p, Times2(a.y, c.x), Times2(a.x, c.y));
    if !Vanishes(p, a.x) {
      CubeRoot(p, a.x, a.y);
    } else {
      VanishingTimes(p, a.x, a.z);
      VanishingSum(p, c.x, Times2(a.x, a.z));
      assert Plus2(c.x, Times2(a.x, a.z)) == Times2(a.y, a.y);
      SquareVanishes(p, a.y);
    }
  }

  /** If the norm vanishes then so do the first two coefficients of the cofactor. */
  lemma NormVanishesFirst(p: int, a: F6)
    requires GoodPrime(p) && !XiIsCube(p) && Vanishes(p, Norm6(Times2, a))
    ensures var c := Cofactor(Times2, a); Vanishes(p, c.x) && Vanishes(p, c.y)
  {
    TimesIsLawful();
    CofactorTwiceX(Times2, a);
    CofactorTwiceY(Times2, a);
    VanishingTimes(p, Norm6(Times2, a), a.x);
    VanishingTimes(p, Norm6(Times2, a), a.y);
    CofactorVanishes(p, Cofactor(Times2, a));
  }

  /** The norm vanishes only at zero, unless xi is a cube. */
  lemma NormVanishes(p: int, a: F6)
    requires GoodPrime(p) && !XiIsCube(p) && Vanishes(p, Norm6(Times2, a))
    ensures Vanishes6(p, a)
  {
    var c := Cofactor(Times2, a);
    NormVanishesFirst(p, a);
    CofactorVanishes(p, a);
    LastVanishes(p, a, c);
  }

  lemma LastVanishes(p: int, a: F6, c: F6)
    requires GoodPrime(p) && c == Cofactor(Times2, a) && Vanishes(p, Norm6(Times2, a))
    requires Vanishes(p, c.x) && Vanishes(p, c.y) && Vanishes(p, a.x) && Vanishes(p, a.y)
    ensures Vanishes(p, a.z)
  {
    var n, u, v, w := Norm6(Times2, a), Times2(c.x, a.y), Times2(c.y, a.x), Times2(c.z, a.z);
    VanishingTimes(p, c.x, a.y);
    VanishingTimes(p, c.y, a.x);
    VanishingSum(p, u, v);
    VanishingSum(p, v, u);
    VanishingSum(p, n, Xi(u));
    VanishingSum(p, Minus2(n, Xi(u)), Xi(v));
    assert Minus2(Minus2(n, Xi(u)), Xi(v)) == w;
    NoZeroDivisors2(p, c.z, a.z);
    if Vanishes(p, c.z) {
      var g := Times2(a.x, a.y);
      VanishingTimes(p, a.x, a.y);
      VanishingSum(p, g, g);
      VanishingSum(p, c.z, Xi(g));
      assert Plus2(c.z, Xi(g)) == Times2(a.z, a.z);
      SquareVanishes(p, a.z);
    }
  }

  // ---------------------------------------------------------------- inverses in the cubic extension

  ghost predicate HasInverse6(p: int, a: F6) {
    exists b :: Cong6(p, Exact6(a, b), One6)
  }

  lemma VanishingTimes6(p: int, a: F6, b: F6)
    requires p > 0 && Vanishes6(p, a)
    ensures Vanishes6(p, Exact6(a, b)) && Vanishes6(p, Exact6(b, a))
  {
    Same6(p, b);
    CongExact6(p, a, Zero6, b, b);
    CongExact6(p, b, b, a, Zero6);
    ExactIsLawful();
    ZeroMul6(Exact6, b);
  }

  /** What an element with an inverse takes to zero is zero. */
  lemma Cancel6(p: int, a: F6, b: F6, u: F6)
    requires p > 0 && Cong6(p, Exact6(a, b), One6) && Vanishes6(p, Exact6(u, a))
    ensures Vanishes6(p, u)
  {
    ExactIsLawful();
    VanishingTimes6(p, Exact6(u, a), b);
    Assoc6(Exact6, u, a, b);
    Same6(p, u);
    CongExact6(p, u, u, Exact6(a, b), One6);
    Comm6(Exact6, u, One6);
    assert At6(u, u, u);
    Flip6(p, Exact6(u, Exact6(a, b)), u);
    Chain6(p, u, Exact6(u, Exact6(a, b)), Zero6);
  }

  lemma OneDoesNotVanish6(p: int)
    requires p >= 2
    ensures !Vanishes6(p, One6)
  {
    OneDoesNotVanish(p);
  }

  /** x*tau - y takes an element whose cofactor vanishes to zero. */
  lemma Annihilates(mul: Product2, a: F6)
    requires Laws2(mul)
    ensures var c := Cofactor(mul, a);
            Times6(mul, F6(Zero2, a.x, Minus2(Zero2, a.y)), a) == F6(Zero2, Minus2(Zero2, c.x), c.y)
  {
    var m := Minus2(Zero2, a.y);
    ZeroMul2(mul, a.x);
    ZeroMul2(mul, a.y);
    ZeroMul2(mul, a.z);
    DistMinus2(mul, Zero2, a.y, a.x);
    DistMinus2(mul, Zero2, a.y, a.y);
    DistMinus2(mul, Zero2, a.y, a.z);
    Comm2(mul, a.x, a.y);
    var u := F6(Zero2, a.x, m);
    assert X6(mul, u, a) == Zero2;
    assert Y6(mul, u, a) == Minus2(Zero2, Cofactor(mul, a).x);
    assert Z6(mul, u, a) == Cofactor(mul, a).y;
  }

  /** An element with an inverse has a norm that does not vanish. */
  lemma UnitNorm(p: int, a: F6, b: F6)
    requires GoodPrime(p) && Cong6(p, Exact6(a, b), One6)
    ensures !Vanishes(p, Norm6(Times2, a))
  {
    var c := Cofactor(Times2, a);
    TimesIsLawful();
    ExactIsLawful();
    CofactorTimes(Times2, a);
    Comm6(Exact6, a, c);
    if Vanishes(p, Norm6(Times2, a)) {
      Same2(p, Zero2);
      Cancel6(p, a, b, c);
      UnitCofactor(p, a, b);
    }
  }

  lemma UnitCofactor(p: int, a: F6, b: F6)
    requires GoodPrime(p) && Cong6(p, Exact6(a, b), One6)
    ensures !Vanishes6(p, Cofactor(Times2, a))
  {
    var c := Cofactor(Times2, a);
    var u := F6(Zero2, a.x, Minus2(Zero2, a.y));
    TimesIsLawful();
    Annihilates(Times2, a);
    if Vanishes6(p, c) {
      Same2(p, Zero2);
      VanishingSum(p, Zero2, c.x);
      Cancel6(p, a, b, u);
      VanishingSum(p, Zero2, Minus2(Zero2, a.y));
      assert Minus2(Zero2, Minus2(Zero2, a.y)) == a.y;
      VanishingTimes(p, a.x, a.y);
      VanishingSum(p, Times2(a.x, a.y), Times2(a.x, a.y));
      VanishingSum(p, c.z, Xi(Times2(a.x, a.y)));
      assert Plus2(c.z, Xi(Times2(a.x, a.y))) == Times2(a.z, a.z);
      SquareVanishes(p, a.z);
      VanishingTimes6(p, a, b);
      Flip6(p, Exact6(a, b), One6);
      Chain6(p, One6, Exact6(a, b), Zero6);
      OneDoesNotVanish6(p);
    }
  }

  /** The code's norm is the exact one modulo p. */
  lemma CodeNorm(p: int, a: F6)
    requires p >= 2
    ensures Vanishes(p, Norm6(Below(p), a)) <==> Vanishes(p, Norm6(Times2, a))
  {
    BelowAgrees(p);
    CongCofactor(p, Below(p), Times2, a);
    var m, n := Norm6(Below(p), a), Norm6(Times2, a);
    if Vanishes(p, n) {
      Chain2(p, m, n, Zero2);
    }
    if Vanishes(p, m) {
      Flip2(p, m, n);
      Chain2(p, n, m, Zero2);
    }
  }

  lemma UnitIsInvertible6(p: int, a: F6)
    requires GoodPrime(p)
    ensures Invertible6(p, a) <==> HasInverse6(p, a)
    ensures HasInverse6(p, a) <==> !Vanishes(p, Norm6(Times2, a))
  {
    var n := Norm6(Below(p), a);
    UnitIsInvertible2(p, n);
    NonzeroIsUnit2(p, n);
    CodeNorm(p, a);
    if Invertible6(p, a) {
      Invert6Correct(p, a);
    }
    if b :| Cong6(p, Exact6(a, b), One6) {
      UnitNorm(p, a, b);
    }
  }

  /** Invert gives the inverse exactly if there is one. */
  lemma Invert6Iff(p: int, a: F6)
    requires GoodPrime(p)
    ensures Cong6(p, Exact6(a, Invert6(p, a)), One6) <==> HasInverse6(p, a)
  {
    UnitIsInvertible6(p, a);
    if HasInverse6(p, a) {
      Invert6Correct(p, a);
    }
  }

  ghost predicate IsField6(p: int) {
    forall a :: !Vanishes6(p, a) ==> HasInverse6(p, a)
  }

  /** Every element but zero has an inverse exactly if xi is not a cube. */
  lemma IsField6Iff(p: int)
    requires GoodPrime(p)
    ensures IsField6(p) <==> !XiIsCube(p)
  {
    if XiIsCube(p) {
      var w :| Cong2(p, Cube(w), Xi(One2));
      var a := RootElement(p, w);
      NoInverse(p, a);
      FirstIsOne(p, a);
    } else {
      forall a | !Vanishes6(p, a) ensures HasInverse6(p, a) {
        UnitIsInvertible6(p, a);
        if Vanishes(p, Norm6(Times2, a)) {
          NormVanishes(p, a);
        }
      }
    }
  }

  /** An element whose cofactor vanishes has no inverse. */
  lemma NoInverse(p: int, a: F6)
    requires GoodPrime(p) && Vanishes6(p, Cofactor(Times2, a))
    ensures !HasInverse6(p, a)
  {
    if HasInverse6(p, a) {
      var b :| Cong6(p, Exact6(a, b), One6);
      UnitCofactor(p, a, b);
    }
  }

  lemma FirstIsOne(p: int, a: F6)
    requires p >= 2 && a.x == One2
    ensures !Vanishes6(p, a)
  {
    OneDoesNotVanish(p);
  }

  /** With a cube root w of xi, tau^2 + w*tau + w^2 has a vanishing cofactor. */
  lemma RootElement(p: int, w: F2) returns (a: F6)
    requires Cong2(p, Cube(w), Xi(One2))
    ensures a.x == One2 && Vanishes6(p, Cofactor(Times2, a))
  {
    TimesIsLawful();
    a := F6(One2, w, Times2(w, w));
    RootCofactor(Times2, w);
    XiTimes(p, w, Cube(w));
    RootVanishes(p, w, Cube(w), Times2(w, Cube(w)));
  }

  lemma XiTimes(p: int, w: F2, cube: F2)
    requires Cong2(p, cube, Xi(One2))
    ensures Cong2(p, Times2(w, cube), Xi(w))
  {
    TimesIsLawful();
    Same2(p, w);
    CongTimes2(p, w, w, cube, Xi(One2));
    XiMul2(Times2, One2, w);
    Unit2(Times2, w);
  }

  lemma RootVanishes(p: int, w: F2, cube: F2, fourth: F2)
    requires Cong2(p, cube, Xi(One2)) && Cong2(p, fourth, Xi(w))
    ensures Vanishes6(p, F6(Zero2, Minus2(Xi(One2), cube), Minus2(fourth, Xi(w))))
  {
    Same2(p, Zero2);
    Flip2(p, cube, Xi(One2));
    VanishingDifference(p, Xi(One2), cube);
    VanishingDifference(p, fourth, Xi(w));
  }

  lemma RootCofactor(mul: Product2, w: F2)
    requires Laws2(mul)
    ensures var cube := mul(w, mul(w, w));
            Cofactor(mul, F6(One2, w, mul(w, w))) == F6(Zero2, Minus2(Xi(One2), cube), Minus2(mul(w, cube), Xi(w)))
  {
    var ww := mul(w, w);
    Unit2(mul, One2);
    Unit2(mul, w);
    Unit2(mul, ww);
    Assoc2(mul, w, w, ww);
    assert Minus2(ww, ww) == Zero2;
  }

  // ---------------------------------------------------------------- the top of the tower

  ghost predicate HasInverse12(p: int, a: F12) {
    exists b :: Cong12(p, Exact12(a, b), One12)
  }

  function ExactNorm(mul: Product6, a: F12): F6 {
    Minus6(mul(a.y, a.y), Tau(mul(a.x, a.x)))
  }

  lemma Four6(mul: Product6, a: F6, b: F6, c: F6, d: F6)
    requires Laws6(mul)
    ensures mul(mul(a, b), mul(c, d)) == mul(mul(a, c), mul(b, d)) == mul(mul(c, d), mul(a, b))
    ensures mul(mul(a, b), mul(c, d)) == mul(mul(b, a), mul(c, d)) == mul(mul(a, b), mul(d, c))
  {
    Orders(mul, a, b, mul(c, d));
    Orders(mul, b, c, d);
    Assoc6(mul, a, c, mul(b, d));
    Comm6(mul, a, b);
    Comm6(mul, c, d);
  }

  lemma SquareOfSum(mul: Product6, a: F6, b: F6)
    requires Laws6(mul)
    ensures mul(Plus6(a, b), Plus6(a, b)) == Plus6(Plus6(mul(a, a), mul(b, b)), Plus6(mul(a, b), mul(a, b)))
  {
    Dist6(mul, a, b, Plus6(a, b));
    Dist6(mul, a, b, a);
    Dist6(mul, a, b, b);
    Comm6(mul, a, b);
  }

  lemma Differences6(mul: Product6, a: F6, b: F6, c: F6, d: F6)
    requires Laws6(mul)
    ensures mul(Minus6(a, b), Minus6(c, d)) == Plus6(Minus6(Minus6(mul(a, c), mul(a, d)), mul(b, c)), mul(b, d))
  {
    DistMinus6(mul, a, b, Minus6(c, d));
    DistMinus6(mul, c, d, a);
    DistMinus6(mul, c, d, b);
  }

  /** The norm of a product is the product of the norms. */
  lemma NormIsMultiplicative(mul: Product6, a: F12, b: F12)
    requires Laws6(mul)
    ensures ExactNorm(mul, Times12(mul, a, b)) == mul(ExactNorm(mul, a), ExactNorm(mul, b))
  {
    var q, r, s, t := mul(a.y, b.y), mul(a.x, b.x), mul(a.x, b.y), mul(b.x, a.y);
    var c := Times12(mul, a, b);
    SquareOfSum(mul, q, Tau(r));
    SquareOfSum(mul, s, t);
    TauMul6(mul, r, q);
    TauMul6(mul, r, Tau(r));
    TauMul6(mul, r, r);
    var A, B, C, D := mul(a.y, a.y), mul(a.x, a.x), mul(b.y, b.y), mul(b.x, b.x);
    Differences6(mul, A, Tau(B), C, Tau(D));
    TauMul6(mul, D, A);
    TauMul6(mul, B, C);
    TauMul6(mul, B, Tau(D));
    TauMul6(mul, D, B);
    Four6(mul, a.y, b.y, a.y, b.y);
    Four6(mul, a.x, b.x, a.x, b.x);
    Four6(mul, a.x, b.y, a.x, b.y);
    Four6(mul, b.x, a.y, b.x, a.y);
    CrossTerms(mul, a, b);
    NormTerms(mul(q, q), mul(r, r), mul(s, s), mul(t, t), mul(q, r));
  }

  lemma CrossTerms(mul: Product6, a: F12, b: F12)
    requires Laws6(mul)
    ensures mul(mul(a.x, b.y), mul(b.x, a.y)) == mul(mul(a.y, b.y), mul(a.x, b.x))
    ensures mul(mul(b.x, a.y), mul(b.x, a.y)) == mul(mul(a.y, a.y), mul(b.x, b.x))
  {
    Four6(mul, a.x, b.y, b.x, a.y);
    Four6(mul, a.x, b.x, b.y, a.y);
    Four6(mul, b.x, a.y, b.x, a.y);
    Comm6(mul, mul(a.y, a.y), mul(b.x, b.x));
    Comm6(mul, b.y, a.y);
    Comm6(mul, mul(a.y, b.y), mul(a.x, b.x));
  }

  /** (qq + tau^2*rr + 2 tau*qr) - tau*(ss + tt + 2 qr). */
  lemma NormTerms(qq: F6, rr: F6, ss: F6, tt: F6, qr: F6)
    ensures Minus6(Plus6(Plus6(qq, Tau(Tau(rr))), Plus6(Tau(qr), Tau(qr))), Tau(Plus6(Plus6(ss, tt), Plus6(qr, qr))))
            == Plus6(Minus6(Minus6(qq, Tau(tt)), Tau(ss)), Tau(Tau(rr)))
  {
  }

  lemma CongNorm12(p: int, a: F12, b: F12)
    requires p > 0 && Cong12(p, a, b)
    ensures Cong6(p, ExactNorm(Exact6, a), ExactNorm(Exact6, b))
  {
    CongExact6(p, a.x, b.x, a.x, b.x);
    CongExact6(p, a.y, b.y, a.y, b.y);
    CongTau(p, Exact6(a.x, a.x), Exact6(b.x, b.x));
    CongMinus6(p, Exact6(a.y, a.y), Exact6(b.y, b.y), Tau(Exact6(a.x, a.x)), Tau(Exact6(b.x, b.x)));
  }

  lemma NormOfOne()
    ensures ExactNorm(Exact6, One12) == One6
  {
    ExactIsLawful();
    assert At6(One6, One6, One6);
    ZeroMul6(Exact6, Zero6);
  }

  /** An inverse stays one when the element is replaced by a congruent one. */
  lemma SameInverses6(p: int, a: F6, b: F6)
    requires p > 0 && Cong6(p, a, b) && HasInverse6(p, a)
    ensures HasInverse6(p, b)
  {
    var c :| Cong6(p, Exact6(a, c), One6);
    Flip6(p, a, b);
    Same6(p, c);
    CongExact6(p, b, a, c, c);
    Chain6(p, Exact6(b, c), Exact6(a, c), One6);
  }

  lemma UnitIsInvertible12(p: int, a: F12)
    requires GoodPrime(p)
    ensures Invertible12(p, a) <==> HasInverse12(p, a)
    ensures HasInverse12(p, a) <==> HasInverse6(p, ExactNorm(Exact6, a))
  {
    var n := ExactNorm(Exact6, a);
    Norm12Correct(p, a);
    Flip6(p, Norm12(p, a), n);
    UnitIsInvertible6(p, Norm12(p, a));
    if Invertible12(p, a) {
      Invert12Correct(p, a);
      SameInverses6(p, Norm12(p, a), n);
    }
    if HasInverse6(p, n) {
      SameInverses6(p, n, Norm12(p, a));
    }
    if b :| Cong12(p, Exact12(a, b), One12) {
      NormHasInverse(p, a, b);
    }
  }

  lemma NormHasInverse(p: int, a: F12, b: F12)
    requires p > 0 && Cong12(p, Exact12(a, b), One12)
    ensures HasInverse6(p, ExactNorm(Exact6, a))
  {
    ExactIsLawful();
    NormIsMultiplicative(Exact6, a, b);
    CongNorm12(p, Exact12(a, b), One12);
    NormOfOne();
  }

  /** Invert gives the inverse exactly if there is one. */
  lemma Invert12Iff(p: int, a: F12)
    requires GoodPrime(p)
    ensures Cong12(p, Exact12(a, Invert12(p, a)), One12) <==> HasInverse12(p, a)
  {
    UnitIsInvertible12(p, a);
    if HasInverse12(p, a) {
      Invert12Correct(p, a);
    }
  }

  /** tau has a square root modulo p. */
  ghost predicate TauIsSquare(p: int) {
    exists s :: Cong6(p, Exact6(s, s), Tau(One6))
  }

  ghost predicate IsField12(p: int) {
    forall a :: !Cong12(p, a, F12(Zero6, Zero6)) ==> HasInverse12(p, a)
  }

  lemma VanishingDifference6(p: int, a: F6, b: F6)
    ensures Vanishes6(p, Minus6(a, b)) <==> Cong6(p, a, b)
  {
    VanishingDifference(p, a.x, b.x);
    VanishingDifference(p, a.y, b.y);
    VanishingDifference(p, a.z, b.z);
  }

  /** y/x is a square root of tau if y^2 = tau*x^2. */
  lemma SquareRoot(p: int, x: F6, y: F6)
    requires p > 0 && HasInverse6(p, x) && Cong6(p, Exact6(y, y), Tau(Exact6(x, x)))
    ensures TauIsSquare(p)
  {
    var t :| Cong6(p, Exact6(x, t), One6);
    ExactIsLawful();
    QuotientSquared(Exact6, x, y, t);
    var xt, yt, tt := Exact6(x, t), Exact6(y, t), Exact6(t, t);
    Same6(p, tt);
    CongExact6(p, Exact6(y, y), Tau(Exact6(x, x)), tt, tt);
    CongExact6(p, xt, One6, xt, One6);
    OneTimes6(One6);
    CongTau(p, Exact6(xt, xt), One6);
    Chain6(p, Exact6(yt, yt), Tau(Exact6(xt, xt)), Tau(One6));
  }

  lemma QuotientSquared(mul: Product6, x: F6, y: F6, t: F6)
    requires Laws6(mul)
    ensures mul(mul(y, t), mul(y, t)) == mul(mul(y, y), mul(t, t))
    ensures mul(Tau(mul(x, x)), mul(t, t)) == Tau(mul(mul(x, t), mul(x, t)))
  {
    Four6(mul, y, t, y, t);
    Four6(mul, x, t, x, t);
    TauMul6(mul, mul(x, x), mul(t, t));
  }

  lemma NormVanishes12(p: int, a: F12)
    requires GoodPrime(p) && !XiIsCube(p) && !TauIsSquare(p) && Vanishes6(p, ExactNorm(Exact6, a))
    ensures Vanishes6(p, a.x) && Vanishes6(p, a.y)
  {
    VanishingDifference6(p, Exact6(a.y, a.y), Tau(Exact6(a.x, a.x)));
    if !Vanishes6(p, a.x) {
      NonzeroHasInverse6(p, a.x);
      SquareRoot(p, a.x, a.y);
    } else {
      VanishingTimes6(p, a.x, a.x);
      CongTau(p, Exact6(a.x, a.x), Zero6);
      Chain6(p, Exact6(a.y, a.y), Tau(Exact6(a.x, a.x)), Zero6);
      if !Vanishes6(p, a.y) {
        NonzeroHasInverse6(p, a.y);
        var b :| Cong6(p, Exact6(a.y, b), One6);
        Cancel6(p, a.y, b, a.y);
      }
    }
  }

  /** Over a field, every element but zero has an inverse exactly if tau is not a square. */
  lemma IsField12Iff(p: int)
    requires GoodPrime(p) && !XiIsCube(p)
    ensures IsField12(p) <==> !TauIsSquare(p)
  {
    if TauIsSquare(p) {
      var s :| Cong6(p, Exact6(s, s), Tau(One6));
      SquareHasNoInverse(p, s, F12(One6, s));
    } else {
      forall a | !Cong12(p, a, F12(Zero6, Zero6)) ensures HasInverse12(p, a) {
        NonzeroHasInverse12(p, a);
      }
    }
  }

  lemma NonzeroHasInverse6(p: int, a: F6)
    requires GoodPrime(p) && !XiIsCube(p) && !Vanishes6(p, a)
    ensures HasInverse6(p, a)
  {
    IsField6Iff(p);
  }

  lemma NonzeroHasInverse12(p: int, a: F12)
    requires GoodPrime(p) && !XiIsCube(p) && !TauIsSquare(p) && !Cong12(p, a, F12(Zero6, Zero6))
    ensures HasInverse12(p, a)
  {
    UnitIsInvertible12(p, a);
    if !HasInverse6(p, ExactNorm(Exact6, a)) {
      if !Vanishes6(p, ExactNorm(Exact6, a)) {
        NonzeroHasInverse6(p, ExactNorm(Exact6, a));
      }
      NormVanishes12(p, a);
    }
  }

  /** With a square root s of tau, omega + s has the norm zero. */
  lemma SquareHasNoInverse(p: int, s: F6, a: F12)
    requires GoodPrime(p) && Cong6(p, Exact6(s, s), Tau(One6)) && a == F12(One6, s)
    ensures !Cong12(p, a, F12(Zero6, Zero6)) && !HasInverse12(p, a)
  {
    OneDoesNotVanish6(p);
    UnitIsInvertible12(p, a);
    RootNorm(p, s, a);
    VanishingHasNoInverse(p, ExactNorm(Exact6, a));
  }

  lemma RootNorm(p: int, s: F6, a: F12)
    requires Cong6(p, Exact6(s, s), Tau(One6)) && a == F12(One6, s)
    ensures Vanishes6(p, ExactNorm(Exact6, a))
  {
    OneTimes6(One6);
    VanishingDifference6(p, Exact6(s, s), Tau(One6));
  }

  lemma OneTimes6(a: F6)
    ensures Exact6(One6, a) == a
  {
    ExactIsLawful();
    assert At6(a, a, a);
  }

  lemma VanishingHasNoInverse(p: int, a: F6)
    requires p >= 2 && Vanishes6(p, a)
    ensures !HasInverse6(p, a)
  {
    OneDoesNotVanish6(p);
    if HasInverse6(p, a) {
      var b :| Cong6(p, Exact6(a, b), One6);
      VanishingTimes6(p, a, b);
      Flip6(p, Exact6(a, b), One6);
      Chain6(p, One6, Exact6(a, b), Zero6);
    }
  }
}
