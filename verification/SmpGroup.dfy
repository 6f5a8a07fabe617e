/** The group that otr/smp.go works in: powers of g modulo p, where g has prime order q. */
module SmpGroup {
  import opened Modular
  import opened Smp
  import opened Division

  /** g is not 1, its q-th power modulo p is, and q is prime. */
  predicate Suitable(p: nat, q: nat, g: nat) {
    1 < g < p && Prime(q) && Exp(g, q, p) == 1
  }

  function ModGroup(p: nat, q: nat, g: nat): Group
    requires 2 <= p
  {
    Group(q, g, (x, y) => x * y % p, (x, n) => Exp(x, n, p), x => Inverse(x, p))
  }

  /** The generator to any integral power. */
  function El(p: nat, q: nat, g: nat, e: int): nat
    requires 0 < p && 0 < q
  {
    Exp(g, e % q, p)
  }

  lemma ElOfNat(p: nat, q: nat, g: nat, n: nat)
    requires Suitable(p, q, g)
    ensures Exp(g, n, p) == El(p, q, g, n)
  {
    assert n == q * (n / q) + n % q;
    Period(p, q, g, n / q, n % q);
  }

  lemma Period(p: nat, q: nat, g: nat, k: nat, r: nat)
    requires 1 < p && Exp(g, q, p) == 1
    ensures Exp(g, q * k + r, p) == Exp(g, r, p)
  {
    ExpSum(g, q * k, r, p);
    ExpProduct(g, q, k, p);
    OneToThe(k);
    UniqueRemainder(Exp(g, r, p), p, 0, Exp(g, r, p));
    UniqueRemainder(1, p, 0, 1);
  }

  lemma {:induction false} OneToThe(k: nat)
    ensures Pow(1, k) == 1
  {
    if k > 0 {
      OneToThe(k - 1);
    }
  }

  lemma ElMul(p: nat, q: nat, g: nat, a: int, b: int)
    requires Suitable(p, q, g)
    ensures El(p, q, g, a) * El(p, q, g, b) % p == El(p, q, g, a + b)
  {
    ExpSum(g, a % q, b % q, p);
    ElOfNat(p, q, g, a % q + b % q);
    ModSum(a, b % q, q);
    ModSum(b, a, q);
  }

  lemma ElExp(p: nat, q: nat, g: nat, a: int, n: nat)
    requires Suitable(p, q, g)
    ensures Exp(El(p, q, g, a), n, p) == El(p, q, g, a * n)
  {
    ExpProduct(g, a % q, n, p);
    ElOfNat(p, q, g, (a % q) * n);
    ModProduct(a, n, q);
  }

  lemma ElZero(p: nat, q: nat, g: nat)
    requires Suitable(p, q, g)
    ensures El(p, q, g, 0) == 1
  {
    UniqueRemainder(0, q, 0, 0);
    UniqueRemainder(1, p, 0, 1);
  }

  lemma ElInverse(p: nat, q: nat, g: nat, a: int)
    requires Suitable(p, q, g)
    ensures Inverse(El(p, q, g, a), p) == El(p, q, g, -a)
  {
    ElMul(p, q, g, a, -a);
    ElZero(p, q, g);
    InverseFound(El(p, q, g, a), El(p, q, g, -a), p, p);
  }

  lemma ElReduced(p: nat, q: nat, g: nat, a: int, b: int)
    requires Suitable(p, q, g)
    ensures El(p, q, g, a * (b % q)) == El(p, q, g, a * b)
  {
    ModProduct(b, a, q);
  }

  /** No power of g below its order is 1. */
  lemma Order(p: nat, q: nat, g: nat, d: nat)
    requires Suitable(p, q, g) && d < q && El(p, q, g, d) == 1
    ensures d == 0
  {
    if d > 0 {
      GcdIsOne(q, d);
      var x, y := Bezout(q, d);
      ElReduced(p, q, g, d, y);
      ElExp(p, q, g, d, y % q);
      OneToThe(y % q);
      UniqueRemainder(1, p, 0, 1);
      assert El(p, q, g, d * y) == 1;
      FirstPower(p, q, g, x, d * y);
    }
  }

  lemma FirstPower(p: nat, q: nat, g: nat, x: int, e: int)
    requires Suitable(p, q, g) && x * q + e == 1
    ensures El(p, q, g, e) == g
  {
    assert e == 1 + -x * q;
    ModShift(1, -x, q);
    UniqueRemainder(1, q, 0, 1);
    assert Pow(g, 1) == g * Pow(g, 0);
    UniqueRemainder(g, p, 0, g);
  }

  lemma ElFaithful(p: nat, q: nat, g: nat, a: int, b: int)
    requires Suitable(p, q, g)
    ensures El(p, q, g, a) == El(p, q, g, b) <==> (a - b) % q == 0
  {
    ModEqual(a, b, q);
    if El(p, q, g, a) == El(p, q, g, b) {
      ElMul(p, q, g, a, -b);
      ElMul(p, q, g, b, -b);
      ElZero(p, q, g);
      UniqueRemainder((a - b) % q, q, 0, (a - b) % q);
      Order(p, q, g, (a - b) % q);
    }
  }

  /** The group of the code is one of the groups that the protocol is proved for. */
  lemma ModGroupIsLawful(p: nat, q: nat, g: nat)
    requires Suitable(p, q, g)
    ensures Laws(ModGroup(p, q, g), e => El(p, q, g, e)) && Faithful(ModGroup(p, q, g), e => El(p, q, g, e))
  {
    FirstPower(p, q, g, 0, 1);
    forall a, b ensures El(p, q, g, a) * El(p, q, g, b) % p == El(p, q, g, a + b) {
      ElMul(p, q, g, a, b);
    }
    forall a, n: nat ensures Exp(El(p, q, g, a), n, p) == El(p, q, g, a * n) {
      ElExp(p, q, g, a, n);
    }
    forall a ensures Inverse(El(p, q, g, a), p) == El(p, q, g, -a) {
      ElInverse(p, q, g, a);
    }
    forall a, b ensures El(p, q, g, a * (b % q)) == El(p, q, g, a * b) {
      ElReduced(p, q, g, a, b);
    }
    forall a, b ensures El(p, q, g, a) == El(p, q, g, b) <==> (a - b) % q == 0 {
      ElFaithful(p, q, g, a, b);
    }
  }
}
