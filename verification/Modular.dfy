/** Arithmetic modulo m on the integers, for the protocols and fields that the repository works in. */
module Modular {
  import opened Division

  /** Adding a multiple of the modulus changes nothing. */
  lemma ModShift(a: int, k: int, m: int)
    requires 0 < m
    ensures (a + k * m) % m == a % m
  {
    assert a + k * m == (a / m + k) * m + a % m;
    UniqueRemainder(a + k * m, m, a / m + k, a % m);
  }

  /** Equal remainders are what a common difference by a multiple of the modulus gives. */
  lemma ModEqual(a: int, b: int, m: int)
    requires 0 < m
    ensures a % m == b % m <==> (a - b) % m == 0
  {
    var x, y := a / m, b / m;
    Differ(a, b, x, y, a % m, b % m, m);
    ModShift(a % m - b % m, x - y, m);
    NearZero(a % m - b % m, m);
  }

  lemma Differ(a: int, b: int, x: int, y: int, r: int, s: int, m: int)
    requires a == x * m + r && b == y * m + s
    ensures a - b == r - s + (x - y) * m
  {
  }

  lemma NearZero(d: int, m: int)
    requires 0 < m && -m < d < m
    ensures d % m == 0 <==> d == 0
  {
    if d % m == 0 {
      assert d == d / m * m;
      MultipleIsLarge(d / m, m);
    } else if d == 0 {
      UniqueRemainder(0, m, 0, 0);
    }
  }

  lemma ModSum(a: int, b: int, m: int)
    requires 0 < m
    ensures (a % m + b) % m == (a + b) % m
  {
    assert a + b == (a % m + b) + (a / m) * m;
    ModShift(a % m + b, a / m, m);
  }

  lemma ModProduct(a: int, b: int, m: int)
    requires 0 < m
    ensures a % m * b % m == a * b % m && b * (a % m) % m == b * a % m
  {
    var k := a / m;
    assert a * b == (a % m) * b + (k * b) * m by {
      assert a == k * m + a % m;
      Expand(k, m, a % m, b);
    }
    ModShift((a % m) * b, k * b, m);
    assert b * a == a * b && b * (a % m) == (a % m) * b;
  }

  lemma Expand(k: int, m: int, r: int, b: int)
    ensures (k * m + r) * b == r * b + (k * b) * m
  {
  }

  lemma Associative(a: int, b: int, c: int)
    ensures a * b * c == a * (b * c)
  {
  }

  // ---------------------------------------------------------------- powers

  function Pow(x: int, e: nat): int
    decreases e, x
  {
    if e == 0 then 1 else x * Pow(x, e - 1)
  }

  lemma {:induction false} PowSum(x: int, a: nat, b: nat)
    ensures Pow(x, a) * Pow(x, b) == Pow(x, a + b)
  {
    if a > 0 {
      PowSum(x, a - 1, b);
      Associative(x, Pow(x, a - 1), Pow(x, b));
    }
  }

  lemma {:induction false} PowProduct(x: int, a: nat, n: nat)
    ensures Pow(Pow(x, a), n) == Pow(x, a * n)
  {
    if n > 0 {
      PowProduct(x, a, n - 1);
      PowSum(x, a, a * (n - 1));
    }
  }

  lemma {:induction false} PowMod(x: int, n: nat, p: nat)
    requires 0 < p
    ensures Pow(x % p, n) % p == Pow(x, n) % p
  {
    if n > 0 {
      var u, v := Pow(x % p, n - 1), Pow(x, n - 1);
      PowMod(x, n - 1, p);
      ModProduct(u, x % p, p);
      ModProduct(v, x % p, p);
      ModProduct(x, v, p);
    }
  }

  /** x to the power e, modulo p. */
  function Exp(x: int, e: nat, p: nat): (r: nat)
    requires 0 < p
    ensures r < p
  {
    Pow(x, e) % p
  }

  lemma ExpSum(x: int, a: nat, b: nat, p: nat)
    requires 0 < p
    ensures Exp(x, a, p) * Exp(x, b, p) % p == Exp(x, a + b, p)
  {
    ModProduct(Pow(x, a), Exp(x, b, p), p);
    ModProduct(Pow(x, b), Pow(x, a), p);
    PowSum(x, a, b);
  }

  lemma ExpProduct(x: int, a: nat, n: nat, p: nat)
    requires 0 < p
    ensures Exp(Exp(x, a, p), n, p) == Exp(x, a * n, p)
  {
    PowMod(Pow(x, a), n, p);
    PowProduct(x, a, n);
  }

  /** The inverse of x below n, or 0 when there is none. */
  function InverseBelow(x: nat, p: nat, n: nat): nat
    requires 2 <= p
  {
    if n == 0 then 0 else if x * (n - 1) % p == 1 then n - 1 else InverseBelow(x, p, n - 1)
  }

  function Inverse(x: nat, p: nat): nat
    requires 2 <= p
  {
    InverseBelow(x, p, p)
  }

  lemma {:induction false} InverseFound(x: nat, y: nat, p: nat, n: nat)
    requires 2 <= p && y < p && x * y % p == 1 && y < n <= p
    ensures InverseBelow(x, p, n) == y
  {
    if x * (n - 1) % p == 1 {
      SameInverse(x, y, n - 1, p);
    } else {
      InverseFound(x, y, p, n - 1);
    }
  }

  lemma SameInverse(x: nat, y: nat, z: nat, p: nat)
    requires 2 <= p && y < p && z < p && x * y % p == 1 && x * z % p == 1
    ensures y == z
  {
    ModProduct(x * y, z, p);
    ModProduct(x * z, y, p);
    Rotate(x, y, z);
    UniqueRemainder(z, p, 0, z);
    UniqueRemainder(y, p, 0, y);
  }

  lemma Rotate(x: int, y: int, z: int)
    ensures x * y * z == x * z * y
  {
  }

  // ---------------------------------------------------------------- primes

  predicate Prime(q: nat) {
    2 <= q && forall d :: 1 < d < q ==> q % d != 0
  }

  function Gcd(a: nat, b: nat): nat
    decreases b
  {
    if b == 0 then a else Gcd(b, a % b)
  }

  lemma {:induction false} GcdDivides(a: nat, b: nat)
    requires a > 0
    ensures Gcd(a, b) > 0 && a % Gcd(a, b) == 0 && b % Gcd(a, b) == 0
    decreases b
  {
    if b > 0 {
      var d := Gcd(a, b);
      GcdDivides(b, a % b);
      var x, y := b / d, a % b / d;
      Combine(a, b, d, x, y);
    }
  }

  lemma Combine(a: nat, b: nat, d: nat, x: nat, y: nat)
    requires b > 0 && d > 0 && b == d * x && a % b == d * y
    ensures a % d == 0
  {
    var k := a / b;
    assert a == k * (d * x) + d * y;
    assert k * (d * x) + d * y == (k * x + y) * d;
    UniqueRemainder(a, d, k * x + y, 0);
  }

  lemma {:induction false} Bezout(a: nat, b: nat) returns (x: int, y: int)
    ensures x * a + y * b == Gcd(a, b)
    decreases b
  {
    if b == 0 {
      x, y := 1, 0;
    } else {
      var u, v := Bezout(b, a % b);
      x, y := v, u - v * (a / b);
      assert a % b == a - a / b * b;
      Swap(u, v, a, b, a / b);
    }
  }

  lemma Swap(u: int, v: int, a: int, b: int, k: int)
    ensures u * b + v * (a - k * b) == v * a + (u - v * k) * b
  {
  }

  /** Euclid's lemma. */
  lemma PrimeDivides(q: nat, a: int, b: int)
    requires Prime(q)
    ensures a * b % q == 0 <==> a % q == 0 || b % q == 0
  {
    if a % q == 0 || b % q == 0 {
      ZeroFactor(q, a, b);
    } else if a * b % q == 0 {
      GcdIsOne(q, a % q);
      var x, y := Bezout(q, a % q);
      OtherFactor(q, a, b, x, y);
    }
  }

  lemma ZeroFactor(q: nat, a: int, b: int)
    requires 0 < q && (a % q == 0 || b % q == 0)
    ensures a * b % q == 0
  {
    if a % q == 0 {
      MultipleOfMultiple(q, a / q, a, b);
    } else {
      MultipleOfMultiple(q, b / q, b, a);
    }
  }

  lemma MultipleOfMultiple(q: nat, k: int, a: int, b: int)
    requires 0 < q && a == q * k
    ensures a * b % q == 0 && b * a % q == 0
  {
    Swapped(q, k, b);
    UniqueRemainder(a * b, q, k * b, 0);
  }

  lemma Swapped(q: int, k: int, b: int)
    ensures (q * k) * b == (k * b) * q && b * (q * k) == (k * b) * q
  {
  }

  lemma OtherFactor(q: nat, a: int, b: int, x: int, y: int)
    requires 0 < q && a * b % q == 0 && x * q + y * (a % q) == 1
    ensures b % q == 0
  {
    var r := a % q;
    Cofactor(x, q, y, r, b);
    ModProduct(a, b, q);
    ZeroFactor(q, y, r * b);
    ModShift(y * (r * b), x * b, q);
  }

  lemma GcdIsOne(q: nat, r: nat)
    requires Prime(q) && 0 < r < q
    ensures Gcd(q, r) == 1
  {
    var d := Gcd(q, r);
    GcdDivides(q, r);
    if d > 1 {
      assert r / d * d == r;
      MultipleIsLarge(r / d, d);
    }
  }

  lemma Cofactor(x: int, q: int, y: int, r: int, b: int)
    requires x * q + y * r == 1
    ensures b == y * (r * b) + (x * b) * q
  {
    assert (x * q + y * r) * b == b;
  }
}
