/**
 * The elements of the bn256 tower as the objects that they are: results go into the cells of the
 * receiver, which may be one of the arguments. GfP6 and GfP12 have the same operations on values.
 */
module TowerObjects {
  import opened GfP2
  import opened GfP6
  import opened GfP12

  // ---------------------------------------------------------------- temporaries

  method Times(p: int, a: Element, b: Element) returns (r: Element)
    requires p > 0
    ensures fresh(r) && r.Value() == Mul2(p, a.Value(), b.Value())
  {
    r := new Element();
    r.Mul(p, a, b);
  }

  method SquareOf(p: int, a: Element) returns (r: Element)
    requires p > 0
    ensures fresh(r) && r.Value() == Square2(p, a.Value())
  {
    r := new Element();
    r.Square(p, a);
  }

  /** (a + b)(c + d) - u. */
  method Cross(p: int, a: Element, b: Element, c: Element, d: Element, u: Element) returns (r: Element)
    requires p > 0
    ensures fresh(r) && r.Value() == Minus2(Mul2(p, Plus2(a.Value(), b.Value()), Plus2(c.Value(), d.Value())),
            u.Value())
  {
    var t0 := new Element();
    t0.Add(a, b);
    var t1 := new Element();
    t1.Add(c, d);
    r := new Element();
    r.Mul(p, t0, t1);
    r.Sub(r, u);
  }

  /** (a + b)^2 - u. */
  method CrossSquare(p: int, a: Element, b: Element, u: Element) returns (r: Element)
    requires p > 0
    ensures fresh(r) && r.Value() == Minus2(Square2(p, Plus2(a.Value(), b.Value())), u.Value())
  {
    r := new Element();
    r.Add(a, b);
    r.Square(p, r);
    r.Sub(r, u);
  }

  /** From t = (..)(..) - v1 the coefficients of 1, tau and tau^2, given v0, v1 and v2. */
  method Last(t: Element, v0: Element, v2: Element)
    requires t != v0 && t != v2
    modifies t
    ensures t.Value() == Plus2(Xi(Minus2(old(t.Value()), v2.Value())), v0.Value())
  {
    t.Sub(t, v2);
    t.MulXi(t);
    t.Add(t, v0);
  }

  method Middle(t: Element, v1: Element, v2: Element)
    requires t != v1 && t != v2
    modifies t
    ensures t.Value() == Plus2(Minus2(old(t.Value()), v1.Value()), Xi(v2.Value()))
  {
    t.Sub(t, v1);
    var xi := new Element();
    xi.MulXi(v2);
    t.Add(t, xi);
  }

  method First(t: Element, v1: Element, v2: Element)
    requires t != v1 && t != v2
    modifies t
    ensures t.Value() == Minus2(Plus2(old(t.Value()), v1.Value()), v2.Value())
  {
    t.Add(t, v1);
    t.Sub(t, v2);
  }

  /** The three coefficients of a product in temporaries of their own. */
  method Product(p: int, a: Element6, b: Element6) returns (tx: Element, ty: Element, tz: Element)
    requires p > 0
    ensures fresh(tx) && fresh(ty) && fresh(tz) && F6(tx.Value(), ty.Value(), tz.Value()) ==
            Mul6(p, a.Value(), b.Value())
  {
    var v0 := Times(p, a.z, b.z);
    var v1 := Times(p, a.y, b.y);
    var v2 := Times(p, a.x, b.x);
    tz := LastOf(p, a, b, v0, v1, v2);
    ty := MiddleOf(p, a, b, v0, v1, v2);
    tx := FirstOf(p, a, b, v0, v1, v2);
  }

  method LastOf(p: int, a: Element6, b: Element6, v0: Element, v1: Element, v2: Element) returns (t: Element)
    requires p > 0
    ensures fresh(t)
    ensures var c := Mul2(p, Plus2(a.x.Value(), a.y.Value()), Plus2(b.x.Value(), b.y.Value()));
            t.Value() == Plus2(Xi(Minus2(Minus2(c, v1.Value()), v2.Value())), v0.Value())
  {
    t := Cross(p, a.x, a.y, b.x, b.y, v1);
    Last(t, v0, v2);
  }

  method MiddleOf(p: int, a: Element6, b: Element6, v0: Element, v1: Element, v2: Element) returns (t: Element)
    requires p > 0
    ensures fresh(t)
    ensures var c := Mul2(p, Plus2(a.y.Value(), a.z.Value()), Plus2(b.y.Value(), b.z.Value()));
            t.Value() == Plus2(Minus2(Minus2(c, v0.Value()), v1.Value()), Xi(v2.Value()))
  {
    t := Cross(p, a.y, a.z, b.y, b.z, v0);
    Middle(t, v1, v2);
  }

  method FirstOf(p: int, a: Element6, b: Element6, v0: Element, v1: Element, v2: Element) returns (t: Element)
    requires p > 0
    ensures fresh(t)
    ensures var c := Mul2(p, Plus2(a.x.Value(), a.z.Value()), Plus2(b.x.Value(), b.z.Value()));
            t.Value() == Minus2(Plus2(Minus2(c, v0.Value()), v1.Value()), v2.Value())
  {
    t := Cross(p, a.x, a.z, b.x, b.z, v0);
    First(t, v1, v2);
  }

  method SquareParts(p: int, a: Element6) returns (c2: Element, c1: Element, c0: Element)
    requires p > 0
    ensures fresh(c2) && fresh(c1) && fresh(c0) && F6(c2.Value(), c1.Value(), c0.Value()) == Square6(p, a.Value())
  {
    var v0 := SquareOf(p, a.z);
    var v1 := SquareOf(p, a.y);
    var v2 := SquareOf(p, a.x);
    c0 := CrossSquare(p, a.x, a.y, v1);
    Last(c0, v0, v2);
    c1 := CrossSquare(p, a.y, a.z, v0);
    Middle(c1, v1, v2);
    c2 := CrossSquare(p, a.x, a.z, v0);
    First(c2, v1, v2);
  }

  // ---------------------------------------------------------------- gfP6

  class Element6 {
    const x: Element
    const y: Element
    const z: Element

    function Cells(): set<Element> {
      {x, y, z}
    }

    function Value(): F6
      reads x, y, z
    {
      F6(x.Value(), y.Value(), z.Value())
    }

    predicate Apart() {
      x != y && x != z && y != z
    }

    constructor ()
      ensures Apart() && fresh(x) && fresh(y) && fresh(z)
    {
      x := new Element();
      y := new Element();
      z := new Element();
    }

    method Store(tx: Element, ty: Element, tz: Element)
      requires Apart() && tx !in Cells() && ty !in Cells() && tz !in Cells()
      modifies x, y, z
      ensures Value() == F6(old(tx.Value()), old(ty.Value()), old(tz.Value()))
    {
      x.Set(tx);
      y.Set(ty);
      z.Set(tz);
    }

    /** Everything is computed before the receiver is written, so it may be a or b. */
    method Mul(p: int, a: Element6, b: Element6)
      requires p > 0 && Apart()
      modifies x, y, z
      ensures Value() == Mul6(p, old(a.Value()), old(b.Value()))
    {
      var tx, ty, tz := Product(p, a, b);
      Store(tx, ty, tz);
    }

    method Square(p: int, a: Element6)
      requires p > 0 && Apart()
      modifies x, y, z
      ensures Value() == Square6(p, old(a.Value()))
    {
      var c2, c1, c0 := SquareParts(p, a);
      Store(c2, c1, c0);
    }

    method MulTau(a: Element6)
      requires Apart() && (a == this || a.Cells() !! Cells())
      modifies x, y, z
      ensures Value() == Tau(old(a.Value()))
    {
      var tz := new Element();
      tz.MulXi(a.x);
      var ty := new Element();
      ty.Set(a.y);
      y.Set(a.z);
      x.Set(ty);
      z.Set(tz);
    }
  
    method Set(a: Element6)
      requires Apart() && (a == this || a.Cells() !! Cells())
      modifies x, y, z
      ensures Value() == old(a.Value())
    {
      x.Set(a.x);
      y.Set(a.y);
      z.Set(a.z);
    }

    method Add(a: Element6, b: Element6)
      requires Apart() && (a == this || a.Cells() !! Cells()) && (b == this || b.Cells() !! Cells())
      modifies x, y, z
      ensures Value() == Plus6(old(a.Value()), old(b.Value()))
    {
      x.Add(a.x, b.x);
      y.Add(a.y, b.y);
      z.Add(a.z, b.z);
    }

    method Sub(a: Element6, b: Element6)
      requires Apart() && (a == this || a.Cells() !! Cells()) && (b == this || b.Cells() !! Cells())
      modifies x, y, z
      ensures Value() == Minus6(old(a.Value()), old(b.Value()))
    {
      x.Sub(a.x, b.x);
      y.Sub(a.y, b.y);
      z.Sub(a.z, b.z);
    }

    method Negative(a: Element6)
      requires Apart() && (a == this || a.Cells() !! Cells())
      modifies x, y, z
      ensures Value() == Negative6(old(a.Value()))
    {
      x.Negative(a.x);
      y.Negative(a.y);
      z.Negative(a.z);
    }

    /** The cofactor and the norm first, then the three products into the receiver. */
    method Invert(p: int, a: Element6)
      requires p >= 2 && Apart()
      modifies x, y, z
      ensures Value() == Invert6(p, old(a.Value()))
    {
      var A, B, C := CofactorParts(p, a);
      var F := NormOf(p, a, A, B, C);
      F.Invert(p, F);
      x.Mul(p, C, F);
      y.Mul(p, B, F);
      z.Mul(p, A, F);
    }
  }

  method CofactorParts(p: int, a: Element6) returns (A: Element, B: Element, C: Element)
    requires p > 0
    ensures fresh(A) && fresh(B) && fresh(C) && A != B && A != C && B != C
    ensures A.Value() == Minus2(Square2(p, a.z.Value()), Xi(Mul2(p, a.x.Value(), a.y.Value())))
    ensures B.Value() == Minus2(Xi(Square2(p, a.x.Value())), Mul2(p, a.y.Value(), a.z.Value()))
    ensures C.Value() == Minus2(Square2(p, a.y.Value()), Mul2(p, a.x.Value(), a.z.Value()))
  {
    A := SquareOf(p, a.z);
    var t1 := Times(p, a.x, a.y);
    t1.MulXi(t1);
    A.Sub(A, t1);
    B := SquareOf(p, a.x);
    B.MulXi(B);
    t1.Mul(p, a.y, a.z);
    B.Sub(B, t1);
    C := SquareOf(p, a.y);
    t1.Mul(p, a.x, a.z);
    C.Sub(C, t1);
  }

  method NormOf(p: int, a: Element6, A: Element, B: Element, C: Element) returns (F: Element)
    requires p > 0
    ensures fresh(F)
    ensures F.Value() == Plus2(Plus2(Xi(Mul2(p, C.Value(), a.y.Value())), Mul2(p, A.Value(), a.z.Value())),
            Xi(Mul2(p, B.Value(), a.x.Value())))
  {
    F := Times(p, C, a.y);
    F.MulXi(F);
    var t1 := Times(p, A, a.z);
    F.Add(F, t1);
    t1.Mul(p, B, a.x);
    t1.MulXi(t1);
    F.Add(F, t1);
  }

  // ---------------------------------------------------------------- gfP12

  class Element12 {
    const x: Element6
    const y: Element6

    function Cells(): set<Element> {
      x.Cells() + y.Cells()
    }

    function Value(): F12
      reads x.x, x.y, x.z, y.x, y.y, y.z
    {
      F12(x.Value(), y.Value())
    }

    predicate Apart() {
      x.Apart() && y.Apart() && x.Cells() !! y.Cells()
    }

    constructor ()
      ensures Apart() && fresh(Cells())
    {
      x := new Element6();
      y := new Element6();
    }

    method Mul(p: int, a: Element12, b: Element12)
      requires p > 0 && Apart()
      modifies Cells()
      ensures Value() == Mul12(p, old(a.Value()), old(b.Value()))
    {
      var tx := SumOfProducts(p, a.x, b.y, b.x, a.y);
      var ty := SumWithTau(p, a.y, b.y, a.x, b.x);
      Store(tx, ty);
    }

    /** Complex squaring. */
    method Square(p: int, a: Element12)
      requires p > 0 && Apart()
      modifies Cells()
      ensures Value() == Square12(p, old(a.Value()))
    {
      var tx, ty := ComplexParts(p, a.x, a.y);
      Store(tx, ty);
    }

    /** The conjugate over the norm. */
    method Invert(p: int, a: Element12)
      requires p >= 2 && Apart() && a.Apart() && (a == this || a.Cells() !! Cells())
      modifies Cells()
      ensures Value() == Invert12(p, old(a.Value()))
    {
      var t2 := NormInverse(p, a.x, a.y);
      ghost var n := t2.Value();
      Conjugate(a);
      assert t2.Value() == n;
      MulScalar(p, t2);
    }

    method Conjugate(a: Element12)
      requires Apart() && a.Apart() && (a == this || a.Cells() !! Cells())
      modifies Cells()
      ensures Value() == F12(Negative6(old(a.x.Value())), old(a.y.Value()))
    {
      x.Negative(a.x);
      y.Set(a.y);
    }

    /** Both coefficients of the receiver are multiplied. */
    method MulScalar(p: int, b: Element6)
      requires p > 0 && Apart() && b.Cells() !! Cells()
      modifies Cells()
      ensures Value() == F12(Mul6(p, old(x.Value()), b.Value()), Mul6(p, old(y.Value()), b.Value()))
    {
      ghost var v := b.Value();
      x.Mul(p, x, b);
      ghost var u := x.Value();
      assert b.Value() == v;
      y.Mul(p, y, b);
      assert x.Value() == u;
    }

    method Store(tx: Element6, ty: Element6)
      requires Apart() && tx.Cells() !! Cells() && ty.Cells() !! Cells()
      modifies Cells()
      ensures Value() == F12(old(tx.Value()), old(ty.Value()))
    {
      y.Set(ty);
      x.Set(tx);
    }
  }

  method Times6New(p: int, a: Element6, b: Element6) returns (r: Element6)
    requires p > 0
    ensures r.Apart() && fresh(r.Cells()) && r.Value() == Mul6(p, a.Value(), b.Value())
  {
    r := new Element6();
    r.Mul(p, a, b);
  }

  method SumWithTau(p: int, a: Element6, b: Element6, c: Element6, d: Element6) returns (r: Element6)
    requires p > 0
    ensures r.Apart() && fresh(r.Cells()) && r.Value() ==
            Plus6(Mul6(p, a.Value(), b.Value()), Tau(Mul6(p, c.Value(), d.Value())))
  {
    r := Times6New(p, a, b);
    ghost var u := r.Value();
    var t := TauTimes(p, c, d);
    ghost var v := t.Value();
    assert r.Value() == u;
    r.Add(r, t);
    assert r.Value() == Plus6(u, v);
  }

  method TauTimes(p: int, a: Element6, b: Element6) returns (r: Element6)
    requires p > 0
    ensures r.Apart() && fresh(r.Cells()) && r.Value() == Tau(Mul6(p, a.Value(), b.Value()))
  {
    r := Times6New(p, a, b);
    r.MulTau(r);
  }

  /** (x + y)(y + x*tau). */
  method SumNew(x: Element6, y: Element6) returns (r: Element6)
    ensures r.Apart() && fresh(r.Cells()) && r.Value() == Plus6(x.Value(), y.Value())
  {
    r := new Element6();
    r.Add(x, y);
  }

  method TauPlus(x: Element6, y: Element6) returns (t: Element6)
    ensures t.Apart() && fresh(t.Cells()) && t.Value() == Plus6(y.Value(), Tau(x.Value()))
  {
    t := new Element6();
    t.MulTau(x);
    t.Add(y, t);
  }

  method TimesShifted(p: int, x: Element6, y: Element6) returns (r: Element6)
    requires p > 0
    ensures r.Apart() && fresh(r.Cells())
    ensures r.Value() == Mul6(p, Plus6(x.Value(), y.Value()), Plus6(y.Value(), Tau(x.Value())))
  {
    var t := TauPlus(x, y);
    ghost var v := t.Value();
    r := SumNew(x, y);
    ghost var u := r.Value();
    assert t.Value() == v;
    r.Mul(p, r, t);
    assert r.Value() == Mul6(p, u, v);
  }

  /** Takes v and v*tau away. */
  method ComplexParts(p: int, x: Element6, y: Element6) returns (v: Element6, t: Element6)
    requires p > 0
    ensures v.Apart() && t.Apart() && fresh(v.Cells()) && fresh(t.Cells()) && t.Cells() !! v.Cells()
    ensures F12(v.Value(), t.Value()) == Square12(p, F12(x.Value(), y.Value()))
  {
    v := Times6New(p, x, y);
    ghost var m := v.Value();
    t := TimesShifted(p, x, y);
    ghost var n := t.Value();
    assert v.Value() == m;
    Corrected(v, t);
    assert v.Value() == Plus6(m, m) && t.Value() == Minus6(Minus6(n, m), Tau(m));
  }

  /** Complex squaring turns the two products into twice the first, and the second less the first and its tau. */
  method Corrected(v: Element6, t: Element6)
    requires t.Apart() && v.Apart() && t.Cells() !! v.Cells()
    modifies t.x, t.y, t.z, v.x, v.y, v.z
    ensures t.Value() == Minus6(Minus6(old(t.Value()), old(v.Value())), Tau(old(v.Value())))
    ensures v.Value() == Plus6(old(v.Value()), old(v.Value()))
  {
    LessTwice(t, v);
    v.Add(v, v);
  }

  method LessTwice(r: Element6, v: Element6)
    requires r.Apart() && r.Cells() !! v.Cells()
    modifies r.x, r.y, r.z
    ensures r.Value() == Minus6(Minus6(old(r.Value()), v.Value()), Tau(v.Value()))
  {
    r.Sub(r, v);
    var t := new Element6();
    t.MulTau(v);
    r.Sub(r, t);
  }

  /** The inverse of y^2 - x^2*tau. */
  method NormInverse(p: int, x: Element6, y: Element6) returns (t2: Element6)
    requires p >= 2
    ensures t2.Apart() && fresh(t2.Cells()) && t2.Value() == Invert6(p, Norm12(p, F12(x.Value(), y.Value())))
  {
    var t1 := NormNew(p, x, y);
    t2 := new Element6();
    t2.Invert(p, t1);
  }

  method NormNew(p: int, x: Element6, y: Element6) returns (t1: Element6)
    requires p > 0
    ensures t1.Apart() && fresh(t1.Cells()) && t1.Value() == Norm12(p, F12(x.Value(), y.Value()))
  {
    t1 := SquareNew(p, x);
    var t2 := SquareNew(p, y);
    t1.MulTau(t1);
    t1.Sub(t2, t1);
  }

  method SquareNew(p: int, a: Element6) returns (r: Element6)
    requires p > 0
    ensures r.Apart() && fresh(r.Cells()) && r.Value() == Square6(p, a.Value())
  {
    r := new Element6();
    r.Square(p, a);
  }

  /** x*tau^2 + y*tau + z from its coefficients, the first one zero. */
  method Sparse(y: Element, z: Element) returns (r: Element6)
    ensures r.Apart() && fresh(r.Cells()) && r.Value() == F6(Zero2, y.Value(), z.Value())
  {
    r := new Element6();
    r.x.SetZero();
    r.y.Set(y);
    r.z.Set(z);
  }

  /** mulLine: ret is multiplied in place. */
  method MulLineInto(p: int, ret: Element12, a: Element, b: Element, c: Element)
    requires p > 0 && ret.Apart() && a !in ret.Cells() && b !in ret.Cells() && c !in ret.Cells()
    modifies ret.Cells()
    ensures ret.Value() == MulLine(p, old(ret.Value()), a.Value(), b.Value(), c.Value())
  {
    var a2, t3, t2 := LineParts(p, ret, a, b, c);
    LineX(p, ret, a2, t3, t2);
    LineY(ret, a2);
  }

  method LineY(ret: Element12, a2: Element6)
    requires ret.Apart() && a2.Apart() && a2.Cells() !! ret.Cells()
    modifies ret.y.Cells(), a2.Cells()
    ensures ret.x.Value() == old(ret.x.Value()) && ret.y.Value() == Plus6(old(ret.y.Value()), Tau(old(a2.Value())))
  {
    a2.MulTau(a2);
    ret.y.Add(ret.y, a2);
  }

  /** The coefficient of omega, with that of 1 half done. */
  method LineX(p: int, ret: Element12, a2: Element6, t3: Element6, t2: Element6)
    requires p > 0 && ret.Apart() && a2.Cells() !! ret.Cells() && t3.Cells() !! ret.Cells() && t2.Cells() !! ret.Cells()
    modifies ret.Cells()
    ensures ret.y.Value() == t3.Value()
    ensures ret.x.Value() == Minus6(Minus6(Mul6(p, Plus6(old(ret.x.Value()), old(ret.y.Value())), t2.Value()),
            a2.Value()), t3.Value())
  {
    ghost var u, w := a2.Value(), t2.Value();
    SumThenSet(ret, t3);
    assert a2.Value() == u && t2.Value() == w;
    TimesLess(p, ret.x, t2, a2, ret.y);
  }

  method SumThenSet(ret: Element12, t: Element6)
    requires ret.Apart() && t.Cells() !! ret.Cells()
    modifies ret.Cells()
    ensures ret.x.Value() == Plus6(old(ret.x.Value()), old(ret.y.Value())) && ret.y.Value() == t.Value()
  {
    ret.x.Add(ret.x, ret.y);
    ret.y.Set(t);
  }

  method TimesLess(p: int, r: Element6, t: Element6, u: Element6, v: Element6)
    requires p > 0 && r.Apart() && t.Cells() !! r.Cells() && u.Cells() !! r.Cells() && v.Cells() !! r.Cells()
    modifies r.x, r.y, r.z
    ensures r.Value() == Minus6(Minus6(Mul6(p, old(r.Value()), t.Value()), u.Value()), v.Value())
  {
    r.Mul(p, r, t);
    r.Sub(r, u);
    r.Sub(r, v);
  }

  method ScaleNew(p: int, a: Element6, c: Element) returns (r: Element6)
    requires p > 0
    ensures r.Apart() && fresh(r.Cells()) && r.Value() == Scale6(Below(p), a.Value(), c.Value())
  {
    r := new Element6();
    r.x.Mul(p, a.x, c);
    r.y.Mul(p, a.y, c);
    r.z.Mul(p, a.z, c);
  }

  method SparseTimes(p: int, a: Element, b: Element, c: Element6) returns (r: Element6)
    requires p > 0
    ensures r.Apart() && fresh(r.Cells()) && r.Value() == Mul6(p, F6(Zero2, a.Value(), b.Value()), c.Value())
  {
    r := Sparse(a, b);
    r.Mul(p, r, c);
  }

  method LineParts(p: int, ret: Element12, a: Element, b: Element, c: Element) returns (a2: Element6, t3: Element6,
      t2: Element6)
    requires p > 0
    ensures a2.Apart() && t3.Apart() && t2.Apart() && fresh(a2.Cells()) && fresh(t3.Cells()) && fresh(t2.Cells())
    ensures a2.Cells() !! t3.Cells() && a2.Cells() !! t2.Cells() && t3.Cells() !! t2.Cells()
    ensures a2.Value() == Mul6(p, F6(Zero2, a.Value(), b.Value()), ret.x.Value())
    ensures t3.Value() == Scale6(Below(p), ret.y.Value(), c.Value())
    ensures t2.Value() == F6(Zero2, a.Value(), Plus2(b.Value(), c.Value()))
  {
    a2 := SparseTimes(p, a, b, ret.x);
    ghost var u := a2.Value();
    t3 := ScaleNew(p, ret.y, c);
    ghost var v := t3.Value();
    var t := new Element();
    t.Add(b, c);
    t2 := Sparse(a, t);
    assert a2.Value() == u && t3.Value() == v;
  }

  method SumOfProducts(p: int, a: Element6, b: Element6, c: Element6, d: Element6) returns (r: Element6)
    requires p > 0
    ensures r.Apart() && fresh(r.Cells()) && r.Value() ==
            Plus6(Mul6(p, a.Value(), b.Value()), Mul6(p, c.Value(), d.Value()))
  {
    r := Times6New(p, a, b);
    ghost var u := r.Value();
    var t := Times6New(p, c, d);
    ghost var v := t.Value();
    assert r.Value() == u;
    r.Add(r, t);
    assert r.Value() == Plus6(u, v);
  }
}
