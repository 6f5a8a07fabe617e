/**
 * The quadratic extension of bn256: elements x*i + y with i^2 = -1. The exact operations work on
 * integers without reduction; the code reduces modulo p here and there, and agrees with them modulo p.
 */
module GfP2 {
  import opened Congruence
  import opened Powering
  import Modular

  datatype F2 = F2(x: int, y: int)

  const Zero2 := F2(0, 0)
  const One2 := F2(0, 1)

  function Plus2(a: F2, b: F2): F2 {
    F2(a.x + b.x, a.y + b.y)
  }

  function Minus2(a: F2, b: F2): F2 {
    F2(a.x - b.x, a.y - b.y)
  }

  /** The product, from i^2 = -1. */
  function Times2(a: F2, b: F2): F2 {
    F2(a.x * b.y + b.x * a.y, a.y * b.y - a.x * b.x)
  }

  /** The product with xi = i + 3. */
  function Xi(a: F2): F2 {
    F2(3 * a.x + a.y, 3 * a.y - a.x)
  }

  // ---------------------------------------------------------------- the ring laws

  type Product2 = (F2, F2) -> F2

  /** Names the elements at which a law is used; it is always true. */
  predicate At2(a: F2, b: F2, c: F2) {
    true
  }

  /** What is needed of a product to build the next extension on it. */
  ghost predicate Laws2(mul: Product2) {
    && (forall a, b, c {:trigger At2(a, b, c)} :: mul(Plus2(a, b), c) == Plus2(mul(a, c), mul(b, c)))
    && (forall a, b, c {:trigger At2(a, b, c)} :: mul(mul(a, b), c) == mul(a, mul(b, c)))
    && (forall a, b, c {:trigger At2(a, b, c)} :: mul(a, b) == mul(b, a))
    && (forall a, b, c {:trigger At2(a, b, c)} :: mul(Xi(a), b) == Xi(mul(a, b)))
    && (forall a, b, c {:trigger At2(a, b, c)} :: mul(One2, a) == a)
  }

  lemma TimesIsLawful()
    ensures Laws2(Times2)
  {
    forall a, b, c ensures Times2(Plus2(a, b), c) == Plus2(Times2(a, c), Times2(b, c)) {
      TimesDistributes(a, b, c);
    }
    forall a, b, c ensures Times2(Times2(a, b), c) == Times2(a, Times2(b, c)) {
      TimesAssociates(a, b, c);
    }
    forall a, b ensures Times2(a, b) == Times2(b, a) {
      TimesCommutes(a, b);
    }
    forall a, b ensures Times2(Xi(a), b) == Xi(Times2(a, b)) {
      TimesXi(a, b);
    }
  }

  lemma TimesDistributes(a: F2, b: F2, c: F2)
    ensures Times2(Plus2(a, b), c) == Plus2(Times2(a, c), Times2(b, c))
  {
  }

  lemma TimesAssociates(a: F2, b: F2, c: F2)
    ensures Times2(Times2(a, b), c) == Times2(a, Times2(b, c))
  {
  }

  lemma TimesCommutes(a: F2, b: F2)
    ensures Times2(a, b) == Times2(b, a)
  {
  }

  lemma TimesXi(a: F2, b: F2)
    ensures Times2(Xi(a), b) == Xi(Times2(a, b))
  {
  }

  lemma Assoc2(mul: Product2, a: F2, b: F2, c: F2)
    requires Laws2(mul)
    ensures mul(mul(a, b), c) == mul(a, mul(b, c))
  {
    assert At2(a, b, c);
  }

  lemma Comm2(mul: Product2, a: F2, b: F2)
    requires Laws2(mul)
    ensures mul(a, b) == mul(b, a)
  {
    assert At2(a, b, b);
  }

  lemma XiMul2(mul: Product2, a: F2, b: F2)
    requires Laws2(mul)
    ensures mul(Xi(a), b) == Xi(mul(a, b)) && mul(b, Xi(a)) == Xi(mul(b, a))
  {
    assert At2(a, b, b);
    assert At2(Xi(a), b, b);
  }

  lemma Dist2(mul: Product2, a: F2, b: F2, c: F2)
    requires Laws2(mul)
    ensures mul(Plus2(a, b), c) == Plus2(mul(a, c), mul(b, c))
    ensures mul(c, Plus2(a, b)) == Plus2(mul(c, a), mul(c, b))
  {
    assert At2(a, b, c);
    Comm2(mul, a, c);
    Comm2(mul, b, c);
    Comm2(mul, Plus2(a, b), c);
  }

  lemma DistMinus2(mul: Product2, a: F2, b: F2, c: F2)
    requires Laws2(mul)
    ensures mul(Minus2(a, b), c) == Minus2(mul(a, c), mul(b, c))
    ensures mul(c, Minus2(a, b)) == Minus2(mul(c, a), mul(c, b))
  {
    Dist2(mul, Minus2(a, b), b, c);
    assert Plus2(Minus2(a, b), b) == a;
  }

  lemma Unit2(mul: Product2, a: F2)
    requires Laws2(mul)
    ensures mul(One2, a) == a && mul(a, One2) == a
  {
    assert At2(a, a, a);
    Comm2(mul, a, One2);
  }

  lemma ZeroMul2(mul: Product2, a: F2)
    requires Laws2(mul)
    ensures mul(Zero2, a) == Zero2 && mul(a, Zero2) == Zero2
  {
    DistMinus2(mul, a, a, a);
    assert Minus2(a, a) == Zero2;
  }

  // ---------------------------------------------------------------- congruence

  ghost predicate Cong2(p: int, a: F2, b: F2) {
    Congruent(p, a.x, b.x) && Congruent(p, a.y, b.y)
  }

  lemma Same2(p: int, a: F2)
    ensures Cong2(p, a, a)
  {
    CongruentBy(p, a.x, a.x, 0);
    CongruentBy(p, a.y, a.y, 0);
  }

  lemma Chain2(p: int, a: F2, b: F2, c: F2)
    requires Cong2(p, a, b) && Cong2(p, b, c)
    ensures Cong2(p, a, c)
  {
    CongruentChain(p, a.x, b.x, c.x);
    CongruentChain(p, a.y, b.y, c.y);
  }

  lemma CongPlus2(p: int, a: F2, b: F2, c: F2, d: F2)
    requires Cong2(p, a, b) && Cong2(p, c, d)
    ensures Cong2(p, Plus2(a, c), Plus2(b, d))
  {
    CongruentSum(p, a.x, b.x, c.x, d.x);
    CongruentSum(p, a.y, b.y, c.y, d.y);
  }

  lemma CongMinus2(p: int, a: F2, b: F2, c: F2, d: F2)
    requires Cong2(p, a, b) && Cong2(p, c, d)
    ensures Cong2(p, Minus2(a, c), Minus2(b, d))
  {
    CongruentDifference(p, a.x, b.x, c.x, d.x);
    CongruentDifference(p, a.y, b.y, c.y, d.y);
  }

  lemma CongXi(p: int, a: F2, b: F2)
    requires Cong2(p, a, b)
    ensures Cong2(p, Xi(a), Xi(b))
  {
    CongruentTimes(p, 3, a.x, b.x);
    CongruentTimes(p, 3, a.y, b.y);
    CongruentSum(p, 3 * a.x, 3 * b.x, a.y, b.y);
    CongruentDifference(p, 3 * a.y, 3 * b.y, a.x, b.x);
  }

  lemma CongTimes2(p: int, a: F2, b: F2, c: F2, d: F2)
    requires Cong2(p, a, b) && Cong2(p, c, d)
    ensures Cong2(p, Times2(a, c), Times2(b, d))
  {
    CongruentProduct(p, a.x, b.x, c.y, d.y);
    CongruentProduct(p, c.x, d.x, a.y, b.y);
    CongruentProduct(p, a.y, b.y, c.y, d.y);
    CongruentProduct(p, a.x, b.x, c.x, d.x);
    CongruentSum(p, a.x * c.y, b.x * d.y, c.x * a.y, d.x * b.y);
    CongruentDifference(p, a.y * c.y, b.y * d.y, a.x * c.x, b.x * d.x);
  }

  lemma CongReduced(p: int, a: F2)
    requires p > 0
    ensures Cong2(p, F2(a.x % p, a.y % p), a)
  {
    CongruentRemainder(p, a.x);
    CongruentRemainder(p, a.y);
  }

  // ---------------------------------------------------------------- the code

  function Mul2(p: int, a: F2, b: F2): F2
    requires p > 0
  {
    F2((a.x * b.y + b.x * a.y) % p, (a.y * b.y - a.x * b.x) % p)
  }

  /** Two multiplications instead of four. */
  function Square2(p: int, a: F2): F2
    requires p > 0
  {
    F2(a.x * a.y * 2 % p, (a.y - a.x) * (a.x + a.y) % p)
  }

  function Norm2(a: F2): (n: nat) {
    Squares(a);
    a.y * a.y + a.x * a.x
  }

  lemma Squares(a: F2)
    ensures a.y * a.y + a.x * a.x >= 0
  {
    assert a.y * a.y >= 0 && a.x * a.x >= 0;
  }

  function Invert2(p: int, a: F2): F2
    requires p >= 2
  {
    var inv := Modular.Inverse(Norm2(a), p);
    F2(-a.x * inv % p, a.y * inv % p)
  }

  lemma Mul2Correct(p: int, a: F2, b: F2)
    requires p > 0
    ensures Cong2(p, Mul2(p, a, b), Times2(a, b))
  {
    CongReduced(p, Times2(a, b));
  }

  /** Squaring returns exactly what multiplication does. */
  lemma SquareIsMul2(p: int, a: F2)
    requires p > 0
    ensures Square2(p, a) == Mul2(p, a, a)
  {
    assert (a.y - a.x) * (a.x + a.y) == a.y * a.y - a.x * a.x;
    assert a.x * a.y * 2 == a.x * a.y + a.x * a.y;
  }

  /** The norm has an inverse modulo p. */
  ghost predicate Invertible2(p: int, a: F2) {
    p >= 2 && exists v :: 0 <= v < p && Norm2(a) * v % p == 1
  }

  lemma Invert2Correct(p: int, a: F2)
    requires Invertible2(p, a)
    ensures Cong2(p, Times2(a, Invert2(p, a)), One2)
  {
    var n := Norm2(a);
    var v :| 0 <= v < p && n * v % p == 1;
    Modular.InverseFound(n, v, p, p);
    var exact := F2(-a.x * v, a.y * v);
    CongReduced(p, exact);
    Same2(p, a);
    CongTimes2(p, a, a, Invert2(p, a), exact);
    Conjugate(a, v);
    CongruentRemainder(p, n * v);
    CongruentFlip(p, 1, n * v);
    CongruentBy(p, 0, 0, 0);
    Chain2(p, Times2(a, Invert2(p, a)), F2(0, n * v), One2);
  }

  lemma Conjugate(a: F2, v: int)
    ensures Times2(a, F2(-a.x * v, a.y * v)) == F2(0, Norm2(a) * v)
  {
    assert a.x * (a.y * v) + -a.x * v * a.y == 0;
    assert a.y * (a.y * v) - a.x * (-a.x * v) == (a.y * a.y + a.x * a.x) * v;
  }

  // ---------------------------------------------------------------- powers

  lemma TimesIsMonoid()
    ensures Monoid(One2, Times2)
  {
    TimesIsLawful();
    MonoidOf(Times2);
  }

  lemma MonoidOf(mul: Product2)
    requires Laws2(mul)
    ensures Monoid(One2, mul)
  {
    forall a, b, c ensures mul(mul(a, b), c) == mul(a, mul(b, c)) {
      Assoc2(mul, a, b, c);
    }
    forall a ensures mul(One2, a) == a && mul(a, One2) == a {
      Unit2(mul, a);
    }
  }

  lemma CodeFollows2(p: int)
    requires p > 0
    ensures Follows((a, b) => Cong2(p, a, b), (a, b) => Mul2(p, a, b), a => Square2(p, a), Times2)
  {
    forall a ensures Cong2(p, a, a) {
      Same2(p, a);
    }
    forall a, b, c, d | Cong2(p, a, b) && Cong2(p, c, d) ensures Cong2(p, Mul2(p, a, c), Times2(b, d)) {
      Mul2Correct(p, a, c);
      CongTimes2(p, a, b, c, d);
      Chain2(p, Mul2(p, a, c), Times2(a, c), Times2(b, d));
    }
    forall a, b | Cong2(p, a, b) ensures Cong2(p, Square2(p, a), Times2(b, b)) {
      SquareIsMul2(p, a);
      Mul2Correct(p, a, a);
      CongTimes2(p, a, b, a, b);
      Chain2(p, Mul2(p, a, a), Times2(a, a), Times2(b, b));
    }
  }

  /** Exp is repeated multiplication modulo p. */
  method Exp2(p: int, a: F2, power: nat) returns (r: F2)
    requires p > 0
    ensures Cong2(p, r, Power(One2, Times2, a, power))
  {
    TimesIsMonoid();
    CodeFollows2(p);
    r := SquareAndMultiply(One2, (a, b) => Mul2(p, a, b), a => Square2(p, a), a, power,
                           Times2, (a, b) => Cong2(p, a, b));
  }

  // ---------------------------------------------------------------- objects

  /** A gfP2 object: the receiver is overwritten, and it may be one of the arguments. */
  class Element {
    var x: int
    var y: int

    function Value(): F2
      reads this
    {
      F2(x, y)
    }

    constructor ()
    {
    }

    method SetZero()
      modifies this
      ensures Value() == Zero2
    {
      x, y := 0, 0;
    }

    method Negative(a: Element)
      modifies this
      ensures Value() == Minus2(Zero2, old(a.Value()))
    {
      x, y := -a.x, -a.y;
    }

    method Set(a: Element)
      modifies this
      ensures Value() == old(a.Value())
    {
      x, y := a.x, a.y;
    }

    method Add(a: Element, b: Element)
      modifies this
      ensures Value() == Plus2(old(a.Value()), old(b.Value()))
    {
      x, y := a.x + b.x, a.y + b.y;
    }

    method Sub(a: Element, b: Element)
      modifies this
      ensures Value() == Minus2(old(a.Value()), old(b.Value()))
    {
      x, y := a.x - b.x, a.y - b.y;
    }

    method MulXi(a: Element)
      modifies this
      ensures Value() == Xi(old(a.Value()))
    {
      var tx := a.x * 2;
      tx := tx + a.x;
      tx := tx + a.y;
      var ty := a.y * 2;
      ty := ty + a.y;
      ty := ty - a.x;
      x, y := tx, ty;
    }

    method Mul(p: int, a: Element, b: Element)
      requires p > 0
      modifies this
      ensures Value() == Mul2(p, old(a.Value()), old(b.Value()))
    {
      var tx := a.x * b.y;
      var t := b.x * a.y;
      tx := (tx + t) % p;
      var ty := a.y * b.y;
      t := a.x * b.x;
      ty := ty - t;
      y := ty % p;
      x := tx;
    }

    method Square(p: int, a: Element)
      requires p > 0
      modifies this
      ensures Value() == Square2(p, old(a.Value()))
    {
      var t1, t2 := a.y - a.x, a.x + a.y;
      var ty := t1 * t2 % p;
      t1 := a.x * a.y;
      t1 := t1 * 2;
      x := t1 % p;
      y := ty;
    }

    method Invert(p: int, a: Element)
      requires p >= 2
      modifies this
      ensures Value() == Invert2(p, old(a.Value()))
    {
      Squares(a.Value());
      var t: nat := a.y * a.y + a.x * a.x;
      var inv := Modular.Inverse(t, p);
      var ay := a.y;
      x := -a.x;
      x := x * inv;
      x := x % p;
      y := ay * inv;
      y := y % p;
    }
  }
}
