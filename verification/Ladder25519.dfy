/**
 * scalarMult of curve25519.go against the ladder of section 5 of RFC 7748: the limbs stand for the
 * ladder's numbers modulo 2^255-19 at every step, and no step overflows.
 */
module Ladder25519 {
  import opened Words
  import opened Congruence
  import opened Modular
  import opened Field25519
  import opened FieldBytes
  import opened Scalar25519
  import Fermat

  // ---------------------------------------------------------------- the ladder on integers

  datatype Points = Points(x2: int, z2: int, x3: int, z3: int)

  function Swapped(s: Points): Points {
    Points(s.x3, s.z3, s.x2, s.z2)
  }

  /** One step of the ladder, with the names that RFC 7748 gives to the intermediate values. */
  function LadderStep(x1: int, s: Points): Points {
    var a, b := s.x2 + s.z2, s.x2 - s.z2;
    var c, d := s.x3 + s.z3, s.x3 - s.z3;
    var aa, bb := a * a, b * b;
    var e := aa - bb;
    var da, cb := d * a, c * b;
    Points(aa * bb, e * (aa + 121665 * e), (da + cb) * (da + cb), x1 * ((da - cb) * (da - cb)))
  }

  /** The ladder after n bits of k, from bit 254 down: a set bit swaps before the step and back after it. */
  function Ladder(x1: int, k: nat, n: nat): Points
    requires n <= 255
    decreases n, x1
  {
    if n == 0 then Points(1, 0, x1, 1)
    else if BitOf(k, 255 - n) == 1 then Swapped(LadderStep(x1, Swapped(Ladder(x1, k, n - 1))))
    else LadderStep(x1, Ladder(x1, k, n - 1))
  }

  // ---------------------------------------------------------------- limbs that stand for a number

  ghost predicate Factor(a: Limbs, v: int) {
    Loose(a) && Congruent(P, Value(a), v)
  }

  ghost predicate Result(a: Limbs, v: int) {
    Tight(a) && Factor(a, v)
  }

  lemma SumIsFactor(a: Limbs, b: Limbs, u: int, v: int)
    requires Result(a, u) && Result(b, v)
    ensures Factor(Add(a, b), u + v) && Factor(Difference(a, b), u - v)
  {
    CongruentSum(P, Value(a), u, Value(b), v);
    CongruentDifference(P, Value(a), u, Value(b), v);
    AddValue(a, b);
    DifferenceValue(a, b);
    var s, d := Add(a, b), Difference(a, b);
    forall i | 0 <= i < 10
      ensures Between(s[i], if i % 2 == 0 then 73819750 else 36909875)
              && Between(d[i], if i % 2 == 0 then 73819750 else 36909875)
    {
      assert Between(a[i], if i % 2 == 0 then 36909875 else 18454937)
             && Between(b[i], if i % 2 == 0 then 36909875 else 18454937);
    }
  }

  function Difference(a: Limbs, b: Limbs): Limbs {
    seq(10, k requires 0 <= k < 10 => a[k] - b[k])
  }

  lemma DifferenceValue(a: Limbs, b: Limbs)
    ensures Value(Difference(a, b)) == Value(a) - Value(b)
  {
  }

  // ---------------------------------------------------------------- the field operations of the ladder

  /** dst may be the same array as a or b. */
  method FeAdd(dst: array<int32>, a: array<int32>, b: array<int32>)
    requires dst.Length == 10 && a.Length == 10 && b.Length == 10 && Tight(a[..]) && Tight(b[..])
    modifies dst
    ensures dst[..] == Add(old(a[..]), old(b[..]))
  {
    assert forall i :: 0 <= i < 10 ==> Between(a[..][i], 36909875) && Between(b[..][i], 36909875);
    var i := 0;
    while i < 10
      invariant 0 <= i <= 10
      invariant forall j :: 0 <= j < i ==> dst[j] == old(a[j]) + old(b[j])
      invariant forall j :: i <= j < 10 ==> a[j] == old(a[j]) && b[j] == old(b[j])
    {
      assert Between(old(a[..])[i], 36909875) && Between(old(b[..])[i], 36909875);
      dst[i] := a[i] + b[i];
      i := i + 1;
    }
  }

  method Sum(dst: array<int32>, a: array<int32>, b: array<int32>, ghost u: int, ghost v: int, ghost r: int)
    requires dst.Length == 10 && a.Length == 10 && b.Length == 10 && Result(a[..], u) && Result(b[..], v) && r == u + v
    modifies dst
    ensures Factor(dst[..], r)
  {
    SumIsFactor(a[..], b[..], u, v);
    FeAdd(dst, a, b);
  }

  /** dst may be the same array as a or b. */
  method FeSub(dst: array<int32>, a: array<int32>, b: array<int32>)
    requires dst.Length == 10 && a.Length == 10 && b.Length == 10 && Tight(a[..]) && Tight(b[..])
    modifies dst
    ensures dst[..] == Difference(old(a[..]), old(b[..]))
  {
    assert forall i :: 0 <= i < 10 ==> Between(a[..][i], 36909875) && Between(b[..][i], 36909875);
    var i := 0;
    while i < 10
      invariant 0 <= i <= 10
      invariant forall j :: 0 <= j < i ==> dst[j] == old(a[j]) - old(b[j])
      invariant forall j :: i <= j < 10 ==> a[j] == old(a[j]) && b[j] == old(b[j])
    {
      assert Between(old(a[..])[i], 36909875) && Between(old(b[..])[i], 36909875);
      dst[i] := a[i] - b[i];
      i := i + 1;
    }
  }

  method Minus(dst: array<int32>, a: array<int32>, b: array<int32>, ghost u: int, ghost v: int, ghost r: int)
    requires dst.Length == 10 && a.Length == 10 && b.Length == 10 && Result(a[..], u) && Result(b[..], v) && r == u - v
    modifies dst
    ensures Factor(dst[..], r)
  {
    SumIsFactor(a[..], b[..], u, v);
    FeSub(dst, a, b);
  }

  method Multiply(h: array<int32>, f: array<int32>, g: array<int32>, ghost u: int, ghost v: int, ghost r: int)
    requires h.Length == 10 && f.Length == 10 && g.Length == 10 && Factor(f[..], u) && Factor(g[..], v) && r == u * v
    modifies h
    ensures Result(h[..], r)
  {
    CongruentProduct(P, Value(f[..]), u, Value(g[..]), v);
    ghost var w := Value(f[..]) * Value(g[..]);
    FeMul(h, f, g);
    CongruentChain(P, Value(h[..]), w, u * v);
    TightIsLoose(h[..]);
  }

  method Square(h: array<int32>, f: array<int32>, ghost u: int, ghost r: int)
    requires h.Length == 10 && f.Length == 10 && Factor(f[..], u) && r == u * u
    modifies h
    ensures Result(h[..], r)
  {
    CongruentProduct(P, Value(f[..]), u, Value(f[..]), u);
    ghost var w := Value(f[..]) * Value(f[..]);
    FeSquare(h, f);
    CongruentChain(P, Value(h[..]), w, u * u);
    TightIsLoose(h[..]);
  }

  method Times121666(h: array<int32>, f: array<int32>, ghost u: int, ghost r: int)
    requires h.Length == 10 && f.Length == 10 && Factor(f[..], u) && r == 121666 * u
    modifies h
    ensures Result(h[..], r)
  {
    CongruentTimes(P, 121666, Value(f[..]), u);
    ghost var w := 121666 * Value(f[..]);
    FeMul121666(h, f);
    CongruentChain(P, Value(h[..]), w, 121666 * u);
    TightIsLoose(h[..]);
  }

  // ---------------------------------------------------------------- one step

  /** The state of the loop: four elements that stand for the points. */
  ghost predicate Stands(x2: Limbs, z2: Limbs, x3: Limbs, z3: Limbs, s: Points) {
    Result(x2, s.x2) && Result(z2, s.z2) && Result(x3, s.x3) && Result(z3, s.z3)
  }

  predicate Distinct(x1: array<int32>, x2: array<int32>, z2: array<int32>, x3: array<int32>, z3: array<int32>,
      t0: array<int32>, t1: array<int32>) {
    && x1.Length == x2.Length == z2.Length == x3.Length == z3.Length == t0.Length == t1.Length == 10
    && x1 != x2 && x1 != z2 && x1 != x3 && x1 != z3 && x1 != t0 && x1 != t1
    && x2 != z2 && x2 != x3 && x2 != z3 && x2 != t0 && x2 != t1
    && z2 != x3 && z2 != z3 && z2 != t0 && z2 != t1
    && x3 != z3 && x3 != t0 && x3 != t1 && z3 != t0 && z3 != t1 && t0 != t1
  }

  /** The names of RFC 7748 for the intermediate values of a step, and some more. */
  datatype Work = Work(a: int, b: int, c: int, d: int, aa: int, bb: int, da: int, cb: int,
                       sum: int, diff: int, square: int, e: int, f: int, g: int)

  predicate Sums(s: Points, k: Work) {
    k.a == s.x2 + s.z2 && k.b == s.x2 - s.z2 && k.c == s.x3 + s.z3 && k.d == s.x3 - s.z3
  }

  predicate Products(k: Work) {
    k.aa == k.a * k.a && k.bb == k.b * k.b && k.da == k.d * k.a && k.cb == k.c * k.b
  }

  predicate Rest(k: Work) {
    && k.sum == k.da + k.cb && k.diff == k.da - k.cb && k.square == k.diff * k.diff
    && k.e == k.aa - k.bb && k.f == 121666 * k.e && k.g == k.bb + k.f
  }

  function WorkOf(s: Points): Work {
    var a, b, c, d := s.x2 + s.z2, s.x2 - s.z2, s.x3 + s.z3, s.x3 - s.z3;
    var aa, bb, da, cb := a * a, b * b, d * a, c * b;
    var e := aa - bb;
    Work(a, b, c, d, aa, bb, da, cb, da + cb, da - cb, (da - cb) * (da - cb), e, 121666 * e, bb + 121666 * e)
  }

  /** The points that a step leads to. */
  predicate Leads(u: int, k: Work, t: Points) {
    t.x2 == k.aa * k.bb && t.z2 == k.e * k.g && t.x3 == k.sum * k.sum && t.z3 == u * k.square
  }

  /** The constant 121666 with bb gives what 121665 with aa gives. */
  lemma StepLeads(u: int, s: Points)
    ensures Sums(s, WorkOf(s)) && Products(WorkOf(s)) && Rest(WorkOf(s)) && Leads(u, WorkOf(s), LadderStep(u, s))
  {
    var k := WorkOf(s);
    assert k.g == k.aa + 121665 * k.e;
  }

  /** The sums and differences. */
  method Combine(x2: array<int32>, z2: array<int32>, x3: array<int32>, z3: array<int32>, t0: array<int32>,
      t1: array<int32>,
                 x1: array<int32>, ghost s: Points, ghost k: Work)
    requires Distinct(x1, x2, z2, x3, z3, t0, t1) && Stands(x2[..], z2[..], x3[..], z3[..], s) && Sums(s, k)
    modifies x2, z2, t0, t1
    ensures Factor(t0[..], k.d) && Factor(t1[..], k.b) && Factor(x2[..], k.a) && Factor(z2[..], k.c)
  {
    Minus(t0, x3, z3, s.x3, s.z3, k.d);
    Minus(t1, x2, z2, s.x2, s.z2, k.b);
    Sum(x2, x2, z2, s.x2, s.z2, k.a);
    Sum(z2, x3, z3, s.x3, s.z3, k.c);
  }

  /** The products da and cb and the squares aa and bb. */
  method Cross(x2: array<int32>, z2: array<int32>, x3: array<int32>, z3: array<int32>, t0: array<int32>,
      t1: array<int32>,
               x1: array<int32>, ghost k: Work)
    requires Distinct(x1, x2, z2, x3, z3, t0, t1) && Products(k)
    requires Factor(t0[..], k.d) && Factor(t1[..], k.b) && Factor(x2[..], k.a) && Factor(z2[..], k.c)
    modifies z2, z3, t0, t1
    ensures Result(z3[..], k.da) && Result(z2[..], k.cb) && Result(t0[..], k.bb) && Result(t1[..], k.aa)
  {
    Multiply(z3, t0, x2, k.d, k.a, k.da);
    Multiply(z2, z2, t1, k.c, k.b, k.cb);
    Square(t0, t1, k.b, k.bb);
    Square(t1, x2, k.a, k.aa);
  }

  /** The next x2, da + cb, the square of da - cb, and e with 121666*e. */
  method Halfway(x2: array<int32>, z2: array<int32>, x3: array<int32>, z3: array<int32>, t0: array<int32>,
      t1: array<int32>,
                 x1: array<int32>, ghost k: Work, ghost x: int)
    requires Distinct(x1, x2, z2, x3, z3, t0, t1) && Rest(k) && x == k.aa * k.bb
    requires Result(z3[..], k.da) && Result(z2[..], k.cb) && Result(t0[..], k.bb) && Result(t1[..], k.aa)
    modifies x2, z2, x3, z3, t1
    ensures Result(x2[..], x) && Result(z2[..], k.square) && Factor(x3[..], k.sum) && Factor(t1[..], k.e)
            && Result(z3[..], k.f)
  {
    Sum(x3, z3, z2, k.da, k.cb, k.sum);
    Minus(z2, z3, z2, k.da, k.cb, k.diff);
    Multiply(x2, t1, t0, k.aa, k.bb, x);
    Minus(t1, t1, t0, k.aa, k.bb, k.e);
    Square(z2, z2, k.diff, k.square);
    Times121666(z3, t1, k.e, k.f);
  }

  /** The next x3, z3 and z2. */
  method Complete(x2: array<int32>, z2: array<int32>, x3: array<int32>, z3: array<int32>, t0: array<int32>,
      t1: array<int32>,
                  x1: array<int32>, ghost u: int, ghost k: Work, ghost t: Points)
    requires Distinct(x1, x2, z2, x3, z3, t0, t1) && Result(x1[..], u) && Rest(k) && Leads(u, k, t)
    requires Factor(x3[..], k.sum) && Result(z2[..], k.square) && Result(t0[..], k.bb) && Factor(t1[..], k.e)
             && Result(z3[..], k.f)
    modifies z2, x3, z3, t0
    ensures Result(x3[..], t.x3) && Result(z3[..], t.z3) && Result(z2[..], t.z2)
  {
    Square(x3, x3, k.sum, t.x3);
    Sum(t0, t0, z3, k.bb, k.f, k.g);
    Multiply(z3, x1, z2, u, k.square, t.z3);
    Multiply(z2, t1, t0, k.e, k.g, t.z2);
  }

  /** One pass of the loop body is one step of the ladder. */
  method Pass(x2: array<int32>, z2: array<int32>, x3: array<int32>, z3: array<int32>, t0: array<int32>,
      t1: array<int32>,
              x1: array<int32>, ghost u: int, ghost s: Points)
    requires Distinct(x1, x2, z2, x3, z3, t0, t1) && Result(x1[..], u) && Stands(x2[..], z2[..], x3[..], z3[..], s)
    modifies x2, z2, x3, z3, t0, t1
    ensures Stands(x2[..], z2[..], x3[..], z3[..], LadderStep(u, s))
  {
    StepLeads(u, s);
    PassWith(x2, z2, x3, z3, t0, t1, x1, u, s, WorkOf(s), LadderStep(u, s));
  }

  method PassWith(x2: array<int32>, z2: array<int32>, x3: array<int32>, z3: array<int32>, t0: array<int32>,
      t1: array<int32>,
                  x1: array<int32>, ghost u: int, ghost s: Points, ghost k: Work, ghost t: Points)
    requires Distinct(x1, x2, z2, x3, z3, t0, t1) && Result(x1[..], u) && Stands(x2[..], z2[..], x3[..], z3[..], s)
    requires Sums(s, k) && Products(k) && Rest(k) && Leads(u, k, t)
    modifies x2, z2, x3, z3, t0, t1
    ensures Stands(x2[..], z2[..], x3[..], z3[..], t)
  {
    Combine(x2, z2, x3, z3, t0, t1, x1, s, k);
    Cross(x2, z2, x3, z3, t0, t1, x1, k);
    Halfway(x2, z2, x3, z3, t0, t1, x1, k, t.x2);
    Complete(x2, z2, x3, z3, t0, t1, x1, u, k, t);
  }

  // ---------------------------------------------------------------- the whole multiplication

  /** All bits are equal: no ones, or no zeros, in two's complement. */
  predicate Uniform(x: int) {
    x == 0 || x == -1
  }

  function Magnitude(x: int): nat {
    if x >= 0 then x else -1 - x
  }

  /** The exclusive or of two numbers in two's complement, bit by bit. */
  function Xor(x: int, y: int): int
    decreases Magnitude(x) + Magnitude(y)
  {
    if Uniform(x) && Uniform(y) then (if x == y then 0 else -1) else 2 * Xor(x / 2, y / 2) + (x % 2 + y % 2) % 2
  }

  function And(x: int, y: int): int
    decreases Magnitude(x) + Magnitude(y)
  {
    if Uniform(x) && Uniform(y) then (if x == y then x else 0) else 2 * And(x / 2, y / 2) + x % 2 * (y % 2)
  }

  lemma {:induction false} MaskKeeps(x: int, mask: int)
    requires Uniform(mask)
    ensures And(mask, x) == if mask == 0 then 0 else x
    decreases Magnitude(x)
  {
    if !Uniform(x) {
      MaskKeeps(x / 2, mask);
    }
  }

  lemma {:induction false} XorZero(x: int)
    ensures Xor(x, 0) == x
    decreases Magnitude(x)
  {
    if !Uniform(x) {
      XorZero(x / 2);
    }
  }

  /** Xor with x takes x out again. */
  lemma {:induction false} XorTwice(x: int, y: int)
    ensures Xor(x, Xor(x, y)) == y && Xor(y, Xor(x, y)) == x
    decreases Magnitude(x) + Magnitude(y)
  {
    if !(Uniform(x) && Uniform(y)) {
      XorTwice(x / 2, y / 2);
      XorStep(x, y);
      BitTwice(x, y, Xor(x / 2, y / 2));
      BitTwice(y, x, Xor(x / 2, y / 2));
    }
  }

  lemma BitTwice(x: int, y: int, z: int)
    requires Xor(x / 2, z) == y / 2
    ensures Xor(x, 2 * z + (x % 2 + y % 2) % 2) == y
  {
    var bit := (x % 2 + y % 2) % 2;
    LastBits(x, z, bit);
    Rebuild(Xor(x, 2 * z + bit), x, y, bit);
  }

  lemma Rebuild(r: int, x: int, y: int, bit: int)
    requires bit == (x % 2 + y % 2) % 2 && r == 2 * (y / 2) + (x % 2 + bit) % 2
    ensures r == y
  {
    Parity(x % 2, y % 2);
  }

  lemma Parity(a: int, b: int)
    requires 0 <= a <= 1 && 0 <= b <= 1
    ensures (a + (a + b) % 2) % 2 == b
  {
    if a == 0 {
    } else if b == 0 {
    } else {
    }
  }

  lemma LastBits(x: int, z: int, bit: int)
    requires 0 <= bit <= 1
    ensures Xor(x, 2 * z + bit) == 2 * Xor(x / 2, z) + (x % 2 + bit) % 2
  {
    XorStep(x, 2 * z + bit);
    assert (2 * z + bit) / 2 == z && (2 * z + bit) % 2 == bit;
  }

  lemma XorStep(x: int, y: int)
    ensures Xor(x, y) == 2 * Xor(x / 2, y / 2) + (x % 2 + y % 2) % 2
  {
  }

  /** The loop body of feCSwap: an exclusive or under the mask -b, without a branch. */
  method SwapLimbs(x: int32, y: int32, b: nat) returns (u: int32, v: int32)
    requires b <= 1
    ensures u == (if b == 1 then y else x) && v == (if b == 1 then x else y)
  {
    var mask: int := 0 - b;
    var t := And(mask, Xor(x, y));
    MaskKeeps(Xor(x, y), mask);
    XorTwice(x, y);
    XorZero(x);
    XorZero(y);
    u, v := Xor(x, t), Xor(y, t);
  }

  /** feCSwap: the elements change places exactly if b is 1. */
  method FeCSwap(f: array<int32>, g: array<int32>, b: nat)
    requires f.Length == 10 && g.Length == 10 && f != g && b <= 1
    modifies f, g
    ensures f[..] == old(if b == 1 then g[..] else f[..]) && g[..] == old(if b == 1 then f[..] else g[..])
  {
    var i := 0;
    while i < 10
      invariant 0 <= i <= 10
      invariant forall j :: 0 <= j < 10 ==> f[j] == old(if b == 1 && j < i then g[j] else f[j])
      invariant forall j :: 0 <= j < 10 ==> g[j] == old(if b == 1 && j < i then f[j] else g[j])
    {
      f[i], g[i] := SwapLimbs(f[i], g[i], b);
      i := i + 1;
    }
  }

  function SwappedIf(s: Points, b: nat): Points {
    if b == 1 then Swapped(s) else s
  }

  method SwapPoints(x2: array<int32>, z2: array<int32>, x3: array<int32>, z3: array<int32>, b: nat, ghost s: Points)
    requires x2.Length == z2.Length == x3.Length == z3.Length == 10 && b <= 1
    requires x2 != x3 && z2 != z3 && x2 != z2 && x2 != z3 && x3 != z2 && x3 != z3
    requires Stands(x2[..], z2[..], x3[..], z3[..], s)
    modifies x2, z2, x3, z3
    ensures Stands(x2[..], z2[..], x3[..], z3[..], SwappedIf(s, b))
  {
    FeCSwap(x2, x3, b);
    FeCSwap(z2, z3, b);
  }

  /** An element for a small constant. */
  method Constant(c: int32) returns (a: array<int32>)
    requires 0 <= c <= 1
    ensures fresh(a) && a.Length == 10 && Result(a[..], c)
  {
    a := new int32[10](_ => 0);
    a[0] := c;
    ghost var l: Limbs := a[..];
    assert l == [c, 0, 0, 0, 0, 0, 0, 0, 0, 0];
    SmallIsResult(c);
  }

  lemma SmallIsResult(c: int)
    requires 0 <= c <= 1
    ensures Result([c, 0, 0, 0, 0, 0, 0, 0, 0, 0], c)
  {
    var l: Limbs := [c, 0, 0, 0, 0, 0, 0, 0, 0, 0];
    assert Value(l) == c;
    CongruentBy(P, c, c, 0);
    assert forall i :: 0 <= i < 10 ==> Between(l[i], 1);
    TightIsLoose(l);
  }

  /** The loop over the bits: a swap is put off until the next one, so that two in a row cancel. */
  method Climb255(x2: array<int32>, z2: array<int32>, x3: array<int32>, z3: array<int32>, t0: array<int32>,
      t1: array<int32>,
                  x1: array<int32>, e: seq<byte>, ghost u: int, ghost k: nat)
    requires Distinct(x1, x2, z2, x3, z3, t0, t1) && |e| == 32 && k == LittleEndian(e, 0, |e|)
    requires Result(x1[..], u) && Stands(x2[..], z2[..], x3[..], z3[..], Ladder(u, k, 0))
    modifies x2, z2, x3, z3, t0, t1
    ensures Stands(x2[..], z2[..], x3[..], z3[..], Ladder(u, k, 255))
  {
    var swap, pos := 0, 255;
    while pos > 0
      invariant 0 <= pos <= 255 && 0 <= swap <= 1 && Result(x1[..], u)
      invariant Stands(x2[..], z2[..], x3[..], z3[..], SwappedIf(Ladder(u, k, 255 - pos), swap))
    {
      pos := pos - 1;
      swap := Climb(x2, z2, x3, z3, t0, t1, x1, e, u, k, pos, swap);
    }
    SwapPoints(x2, z2, x3, z3, swap, SwappedIf(Ladder(u, k, 255), swap));
    SwapCancels(Ladder(u, k, 255), swap, 0);
  }

  /** One bit: the swap that is due, and a pass. */
  method Climb(x2: array<int32>, z2: array<int32>, x3: array<int32>, z3: array<int32>, t0: array<int32>,
      t1: array<int32>,
               x1: array<int32>, e: seq<byte>, ghost u: int, ghost k: nat, pos: nat, swap: nat) returns (b: nat)
    requires Distinct(x1, x2, z2, x3, z3, t0, t1) && |e| == 32 && k == LittleEndian(e, 0, |e|)
    requires pos < 255 && swap <= 1 && Result(x1[..], u)
    requires Stands(x2[..], z2[..], x3[..], z3[..], SwappedIf(Ladder(u, k, 254 - pos), swap))
    modifies x2, z2, x3, z3, t0, t1
    ensures b == BitOf(k, pos)
    ensures Stands(x2[..], z2[..], x3[..], z3[..], SwappedIf(Ladder(u, k, 255 - pos), b))
  {
    b := Bit(e, pos);
    BitIsOfNumber(e, pos);
    ghost var l := Ladder(u, k, 254 - pos);
    SwapCancels(l, swap, b);
    SwapPoints(x2, z2, x3, z3, if swap == b then 0 else 1, SwappedIf(l, swap));
    Pass(x2, z2, x3, z3, t0, t1, x1, u, SwappedIf(l, b));
    NextRung(u, k, pos);
  }

  lemma SwapCancels(l: Points, swap: nat, b: nat)
    requires swap <= 1 && b <= 1
    ensures SwappedIf(SwappedIf(l, swap), if swap == b then 0 else 1) == SwappedIf(l, b)
  {
  }

  lemma NextRung(u: int, k: nat, pos: nat)
    requires pos < 255
    ensures LadderStep(u, SwappedIf(Ladder(u, k, 254 - pos), BitOf(k, pos))) ==
            SwappedIf(Ladder(u, k, 255 - pos), BitOf(k, pos))
  {
  }

  lemma {:induction false} CongruentPower(a: int, b: int, n: nat)
    requires Congruent(P, a, b)
    ensures Congruent(P, Pow(a, n), Pow(b, n))
  {
    if n == 0 {
      CongruentBy(P, 1, 1, 0);
    } else {
      CongruentPower(a, b, n - 1);
      CongruentProduct(P, a, b, Pow(a, n - 1), Pow(b, n - 1));
    }
  }

  /** The base point, and a copy of it. */
  method BaseTwice(base: array<byte>) returns (x1: array<int32>, x3: array<int32>)
    requires base.Length == 32
    ensures fresh(x1) && fresh(x3) && x1 != x3 && x1.Length == x3.Length == 10
    ensures var u := LittleEndian(base[..], 0, 32); Result(x1[..], u) && Result(x3[..], u)
  {
    x1 := new int32[10];
    FeFromBytes(x1, base);
    TightIsLoose(x1[..]);
    x3 := new int32[10](i requires 0 <= i < 10 reads x1 => x1[i]);
    assert x3[..] == x1[..];
  }

  /** The quotient of the two coordinates, with the inverse as a power. */
  method Divide(x2: array<int32>, z2: array<int32>, ghost x: int, ghost z: int)
    requires x2.Length == 10 && z2.Length == 10 && x2 != z2 && Result(x2[..], x) && Result(z2[..], z)
    modifies x2, z2
    ensures Result(x2[..], x * Pow(z, P - 2))
  {
    ghost var v := Value(z2[..]);
    CongruentPower(v, z, P - 2);
    FeInvert(z2, z2);
    CongruentChain(P, Value(z2[..]), Pow(v, P - 2), Pow(z, P - 2));
    Multiply(x2, x2, z2, x, Pow(z, P - 2), x * Pow(z, P - 2));
  }

  /** The canonical form of x2/z2 at the end of the ladder for k, where division is multiplication by the power p-2. */
  ghost predicate LadderGives(r: int, u: int, k: nat) {
    var l := Ladder(u, k, 255);
    0 <= r < P && Congruent(P, r, l.x2 * Pow(l.z2, P - 2))
  }

  /** scalarMult: the bytes are what section 5 of RFC 7748 makes of the base and the one scalar of the key. */
  method ScalarMult(out: array<byte>, key: array<byte>, base: array<byte>)
    requires out.Length == 32 && key.Length == 32 && base.Length == 32
    modifies out
    ensures exists k :: IsScalar(k, LittleEndian(old(key[..]), 0, 32))
                        && LadderGives(LittleEndian(out[..], 0, 32), LittleEndian(old(base[..]), 0, 32), k)
  {
    var e := Clamped(key[..]);
    ghost var u, k := LittleEndian(base[..], 0, 32), LittleEndian(e, 0, |e|);
    ClampedIsScalar(key[..]);
    var x1, x3 := BaseTwice(base);
    var x2 := Constant(1);
    var z2 := Constant(0);
    var z3 := Constant(1);
    var t0, t1 := new int32[10], new int32[10];
    assert Distinct(x1, x2, z2, x3, z3, t0, t1);
    Climb255(x2, z2, x3, z3, t0, t1, x1, e, u, k);
    ghost var l := Ladder(u, k, 255);
    Affine(out, x2, z2, l.x2, l.z2);
    assert LadderGives(LittleEndian(out[..], 0, 32), u, k);
  }

  /** The quotient of the two coordinates in bytes. */
  method Affine(out: array<byte>, x2: array<int32>, z2: array<int32>, ghost x: int, ghost z: int)
    requires out.Length == 32 && x2.Length == z2.Length == 10 && x2 != z2 && Result(x2[..], x) && Result(z2[..], z)
    modifies out, x2, z2
    ensures var r := LittleEndian(out[..], 0, 32); 0 <= r < P && Congruent(P, r, x * Pow(z, P - 2))
  {
    Divide(x2, z2, x, z);
    ghost var v := Value(x2[..]);
    FeToBytes(out, x2);
    CongruentChain(P, LittleEndian(out[..], 0, 32), v, x * Pow(z, P - 2));
  }

  /** If p is prime, a result is the quotient of the two coordinates that the ladder ends with. */
  lemma ResultIsQuotient(p: nat, r: int, x: int, z: int)
    requires Prime(p) && z % p != 0 && Congruent(p, r, x * Pow(z, p - 2))
    ensures Congruent(p, r * z, x)
  {
    var q := Pow(z, p - 2);
    Fermat.LittleTheorem(p, z);
    assert Pow(z, p - 1) == z * q;
    CongruentRemainder(p, z * q);
    CongruentFlip(p, 1, z * q);
    CongruentTimes(p, x, z * q, 1);
    CongruentTimes(p, z, r, x * q);
    assert z * (x * q) == x * (z * q);
    CongruentChain(p, z * r, x * (z * q), x);
    assert z * r == r * z;
  }
}
