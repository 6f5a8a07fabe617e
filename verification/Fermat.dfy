/**
 * Fermat's little theorem, from the binomial theorem, and what it says about sums of two squares: modulo a
 * prime of the form 4k+3 they vanish only with their summands, so that i is a new number in gfp2.go.
 */
module Fermat {
  import opened Division
  import opened Modular

  // ---------------------------------------------------------------- binomials

  function Choose(n: nat, k: nat): nat {
    if k == 0 then 1 else if n == 0 then 0 else Choose(n - 1, k - 1) + Choose(n - 1, k)
  }

  lemma {:induction false} ChooseBeyond(n: nat, k: nat)
    requires k > n
    ensures Choose(n, k) == 0
  {
    if n > 0 {
      ChooseBeyond(n - 1, k - 1);
      ChooseBeyond(n - 1, k);
    }
  }

  /** k out of n with one of them marked: choose the marked one first. */
  lemma {:induction false} ChooseMarked(n: nat, k: nat)
    requires n > 0 && k > 0
    ensures k * Choose(n, k) == n * Choose(n - 1, k - 1)
  {
    if n > 1 {
      ChooseMarked(n - 1, k);
      if k > 1 {
        ChooseMarked(n - 1, k - 1);
      }
      Marked(n, k, Choose(n - 1, k - 1), Choose(n - 1, k), if k > 1 then Choose(n - 2, k - 2)
          else 0, Choose(n - 2, k - 1));
    } else {
      ChooseBeyond(0, k);
      if k > 1 {
        ChooseBeyond(0, k - 1);
      }
    }
  }

  lemma Marked(n: nat, k: nat, a: nat, b: nat, c: nat, d: nat)
    requires n > 1 && k > 0 && k * b == (n - 1) * d && (k - 1) * a == (n - 1) * c && a == c + d
    ensures k * (a + b) == n * a
  {
    assert k * (a + b) == (k - 1) * a + a + k * b;
    assert (n - 1) * c + (n - 1) * d == (n - 1) * a;
  }

  /** The binomial coefficients of a prime, but for the first and the last, are multiples of it. */
  lemma PrimeChoose(p: nat, k: nat)
    requires Prime(p) && 0 < k < p
    ensures Choose(p, k) % p == 0
  {
    ChooseMarked(p, k);
    MultipleOfMultiple(p, 1, p, Choose(p - 1, k - 1));
    PrimeDivides(p, k, Choose(p, k));
    UniqueRemainder(k, p, 0, k);
  }

  // ---------------------------------------------------------------- the binomial theorem

  /** The first k + 1 terms of (1 + x)^n. */
  function Terms(n: nat, x: int, k: nat): int {
    if k == 0 then 1 else Terms(n, x, k - 1) + Choose(n, k) * Pow(x, k)
  }

  lemma {:induction false} NextRow(n: nat, x: int, k: nat)
    ensures (1 + x) * Terms(n, x, k) == Terms(n + 1, x, k) + Choose(n, k) * Pow(x, k + 1)
  {
    if k == 0 {
      assert Pow(x, 1) == x * Pow(x, 0);
    } else {
      NextRow(n, x, k - 1);
      Shift(x, Terms(n, x, k - 1), Choose(n, k - 1), Choose(n, k), Pow(x, k));
    }
  }

  lemma Shift(x: int, t: int, c: int, d: int, q: int)
    ensures (1 + x) * (t + d * q) == (1 + x) * t + d * q + d * (x * q)
    ensures c * q + d * q == (c + d) * q
  {
    assert (1 + x) * (d * q) == d * q + x * (d * q);
    assert x * (d * q) == d * (x * q);
  }

  lemma {:induction false} Binomial(n: nat, x: int)
    ensures Pow(1 + x, n) == Terms(n, x, n)
  {
    if n > 0 {
      Binomial(n - 1, x);
      NextRow(n - 1, x, n - 1);
      ChooseBeyond(n - 1, n);
    }
  }

  // ---------------------------------------------------------------- Fermat

  lemma {:induction false} TermsModPrime(p: nat, x: int, k: nat)
    requires Prime(p) && k < p
    ensures Terms(p, x, k) % p == 1
  {
    if k == 0 {
      UniqueRemainder(1, p, 0, 1);
    } else {
      TermsModPrime(p, x, k - 1);
      PrimeChoose(p, k);
      ZeroFactor(p, Choose(p, k), Pow(x, k));
      AddMultiple(Terms(p, x, k - 1), Choose(p, k) * Pow(x, k), p);
    }
  }

  lemma AddMultiple(a: int, b: int, m: int)
    requires 0 < m && b % m == 0
    ensures (a + b) % m == a % m
  {
    assert b == b / m * m;
    ModShift(a, b / m, m);
  }

  lemma {:induction false} FermatNat(p: nat, x: nat)
    requires Prime(p)
    ensures Pow(x, p) % p == x % p
  {
    if x == 0 {
      assert Pow(0, p) == 0 * Pow(0, p - 1);
    } else {
      FermatNat(p, x - 1);
      Binomial(p, x - 1);
      ChooseAll(p);
      TermsModPrime(p, x - 1, p - 1);
      ModSum(Terms(p, x - 1, p - 1), Pow(x - 1, p), p);
      ModSum(Pow(x - 1, p), 1, p);
      ModSum(x - 1, 1, p);
    }
  }

  lemma {:induction false} ChooseAll(n: nat)
    ensures Choose(n, n) == 1
  {
    if n > 0 {
      ChooseAll(n - 1);
      ChooseBeyond(n - 1, n);
    }
  }

  /** Fermat's little theorem. */
  lemma LittleTheorem(p: nat, x: int)
    requires Prime(p) && x % p != 0
    ensures Pow(x, p - 1) % p == 1
  {
    var y := x % p;
    FermatNat(p, y);
    PowMod(x, p - 1, p);
    assert Pow(y, p) == y * Pow(y, p - 1);
    UniqueRemainder(y, p, 0, y);
    ModEqual(y * Pow(y, p - 1), y, p);
    assert y * Pow(y, p - 1) - y == y * (Pow(y, p - 1) - 1);
    PrimeDivides(p, y, Pow(y, p - 1) - 1);
    ModEqual(Pow(y, p - 1), 1, p);
    UniqueRemainder(1, p, 0, 1);
  }

  // ---------------------------------------------------------------- sums of two squares

  lemma {:induction false} OddPower(x: int, n: nat)
    ensures Pow(-x, 2 * n + 1) == -Pow(x, 2 * n + 1)
  {
    if n == 0 {
      assert Pow(-x, 1) == -x * Pow(-x, 0) && Pow(x, 1) == x * Pow(x, 0);
    } else {
      OddPower(x, n - 1);
      TwoMore(x, 2 * n - 1);
      TwoMore(-x, 2 * n - 1);
      Negated(x, Pow(x, 2 * n - 1));
    }
  }

  lemma TwoMore(x: int, n: nat)
    ensures Pow(x, n + 2) == x * (x * Pow(x, n))
  {
  }

  lemma Negated(x: int, q: int)
    ensures -x * (-x * -q) == -(x * (x * q))
  {
  }

  lemma SquarePower(x: int, n: nat)
    ensures Pow(x * x, n) == Pow(x, 2 * n)
  {
    assert Pow(x, 2) == x * (x * Pow(x, 0));
    PowProduct(x, 2, n);
  }

  /** Modulo a prime of the form 4k+3 a sum of two squares vanishes only with both. */
  lemma TwoSquares(p: nat, x: int, y: int)
    requires Prime(p) && p % 4 == 3
    ensures (x * x + y * y) % p == 0 <==> x % p == 0 && y % p == 0
  {
    PrimeDivides(p, x, x);
    PrimeDivides(p, y, y);
    if y % p == 0 {
      AddMultiple(x * x, y * y, p);
    } else if (x * x + y * y) % p == 0 {
      if x % p == 0 {
        AddMultiple(y * y, x * x, p);
      } else {
        NoRoot(p, x, y);
      }
    }
  }

  lemma NoRoot(p: nat, x: int, y: int)
    requires Prime(p) && p % 4 == 3 && x % p != 0 && y % p != 0
    ensures (x * x + y * y) % p != 0
  {
    var n := p / 4;
    var h := 2 * n + 1;
    LittleTheorem(p, x);
    LittleTheorem(p, y);
    SquarePower(x, h);
    SquarePower(y, h);
    assert 2 * h == p - 1;
    OddPower(y * y, n);
    if (x * x + y * y) % p == 0 {
      ModEqual(x * x, -(y * y), p);
      PowMod(x * x, h, p);
      PowMod(-(y * y), h, p);
      OppositeOnes(Pow(x, p - 1), Pow(y, p - 1), p);
    }
  }

  lemma OppositeOnes(a: int, b: int, p: nat)
    requires p > 2 && a % p == 1 && b % p == 1
    ensures a % p != -b % p
  {
    if a % p == -b % p {
      ModEqual(a, -b, p);
      ModSum(a, b, p);
      ModSum(b, 1, p);
      UniqueRemainder(2, p, 0, 2);
    }
  }
}
