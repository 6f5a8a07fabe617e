/**
 * Arithmetic modulo 2^255-19 in radix 2^25.5, as curve25519.go does it on ten 32-bit limbs with
 * 64-bit intermediate sums. The word types are ranges of the integers, so that every assignment
 * in a method below carries the proof that nothing overflows.
 */
module Field25519 {
  import opened Congruence
  import opened Modular

  type int32 = x: int | -0x8000_0000 <= x < 0x8000_0000
  type int64 = x: int | -0x8000_0000_0000_0000 <= x < 0x8000_0000_0000_0000

  /** 2^255 - 19. */
  const P := 0x7fffffffffffffffffffffffffffffffffffffffffffffffffffffffffffffed

  /** Ten limbs. */
  type Limbs = s: seq<int> | |s| == 10 witness [0, 0, 0, 0, 0, 0, 0, 0, 0, 0]

  /** The integer that ten limbs stand for: limb i weighs 2^ceil(25.5 i). */
  function Value(h: Limbs): int {
    h[0] + 0x4000000 * h[1] + 0x8000000000000 * h[2] + 0x20000000000000000000 * h[3]
        + 0x40000000000000000000000000 * h[4] + 0x100000000000000000000000000000000 * h[5]
        + 0x200000000000000000000000000000000000000 * h[6] + 0x800000000000000000000000000000000000000000000 * h[7]
        + 0x1000000000000000000000000000000000000000000000000000 * h[8]
        + 0x4000000000000000000000000000000000000000000000000000000000 * h[9]
  }

  predicate Between(x: int, bound: int) {
    -bound <= x <= bound
  }

  /** Limbs within 1.1*2^26 and 1.1*2^25 in turn: what multiplication accepts. */
  predicate Loose(h: Limbs) {
    forall i :: 0 <= i < 10 ==> Between(h[i], if i % 2 == 0 then 73819750 else 36909875)
  }

  /** Limbs within 1.1*2^25 and 1.1*2^24 in turn: what multiplication returns. */
  predicate Tight(h: Limbs) {
    forall i :: 0 <= i < 10 ==> Between(h[i], if i % 2 == 0 then 36909875 else 18454937)
  }

  // ---------------------------------------------------------------- schoolbook multiplication

  /** g times 2^26, as limbs: weights alternate between 2^26 and 2^25, hence the factors of 2. */
  function ShiftOne(g: Limbs): Limbs {
    [38 * g[9], g[0], 2 * g[1], g[2], 2 * g[3], g[4], 2 * g[5], g[6], 2 * g[7], g[8]]
  }

  /** g times 2^51, as limbs: 2^255 comes back as 19. */
  function ShiftTwo(g: Limbs): Limbs {
    [19 * g[8], 19 * g[9], g[0], g[1], g[2], g[3], g[4], g[5], g[6], g[7]]
  }

  /** The limbs of g times the weight of limb i. */
  function Row(i: nat, g: Limbs): Limbs {
    if i == 0 then g else if i == 1 then ShiftOne(g) else ShiftTwo(Row(i - 2, g))
  }

  function Weight(i: nat): int {
    if i == 0 then 1 else if i == 1 then 0x4000000 else 0x8000000000000 * Weight(i - 2)
  }

  lemma {:induction false} RowValue(i: nat, g: Limbs)
    ensures Congruent(P, Value(Row(i, g)), Weight(i) * Value(g))
  {
    if i == 0 {
      CongruentBy(P, Value(g), Value(g), 0);
    } else if i == 1 {
      CongruentBy(P, Value(ShiftOne(g)), 0x4000000 * Value(g), -2 * g[9]);
    } else {
      RowValue(i - 2, g);
      ShiftTwoValue(Row(i - 2, g));
      CongruentTimes(P, 0x8000000000000, Value(Row(i - 2, g)), Weight(i - 2) * Value(g));
      Regroup(0, 0x8000000000000, Weight(i - 2), Value(g));
      CongruentChain(P, Value(Row(i, g)), 0x8000000000000 * Value(Row(i - 2, g)), Weight(i) * Value(g));
    }
  }

  lemma ShiftTwoValue(g: Limbs)
    ensures Congruent(P, Value(ShiftTwo(g)), 0x8000000000000 * Value(g))
  {
    CongruentBy(P, Value(ShiftTwo(g)), 0x8000000000000 * Value(g), -(g[8] + 0x4000000 * g[9]));
  }

  function Scale(x: int, r: Limbs): Limbs {
    seq(10, k requires 0 <= k < 10 => x * r[k])
  }

  function Add(a: Limbs, b: Limbs): Limbs {
    seq(10, k requires 0 <= k < 10 => a[k] + b[k])
  }

  /** The first n rows of the product of f and g, added up. */
  function Rows(f: Limbs, g: Limbs, n: nat): Limbs
    requires n <= 10
  {
    if n == 0 then [0, 0, 0, 0, 0, 0, 0, 0, 0, 0] else Add(Rows(f, g, n - 1), Scale(f[n - 1], Row(n - 1, g)))
  }

  /** The value of the first n limbs. */
  function Partial(f: Limbs, n: nat): int
    requires n <= 10
  {
    if n == 0 then 0 else Partial(f, n - 1) + Weight(n - 1) * f[n - 1]
  }

  lemma ScaleValue(x: int, r: Limbs)
    ensures Value(Scale(x, r)) == x * Value(r)
  {
    Distribute(x, r[0], 0x4000000 * r[1], 0x8000000000000 * r[2], 0x20000000000000000000 * r[3],
        0x40000000000000000000000000 * r[4], 0x100000000000000000000000000000000 * r[5],
        0x200000000000000000000000000000000000000 * r[6], 0x800000000000000000000000000000000000000000000 * r[7],
        0x1000000000000000000000000000000000000000000000000000 * r[8],
        0x4000000000000000000000000000000000000000000000000000000000 * r[9]);
    Swap(x, 0x4000000, r[1]);
    Swap(x, 0x8000000000000, r[2]);
    Swap(x, 0x20000000000000000000, r[3]);
    Swap(x, 0x40000000000000000000000000, r[4]);
    Swap(x, 0x100000000000000000000000000000000, r[5]);
    Swap(x, 0x200000000000000000000000000000000000000, r[6]);
    Swap(x, 0x800000000000000000000000000000000000000000000, r[7]);
    Swap(x, 0x1000000000000000000000000000000000000000000000000000, r[8]);
    Swap(x, 0x4000000000000000000000000000000000000000000000000000000000, r[9]);
  }

  lemma Swap(x: int, w: int, y: int)
    ensures x * (w * y) == w * (x * y)
  {
  }

  lemma Distribute(x: int, a0: int, a1: int, a2: int, a3: int, a4: int, a5: int, a6: int, a7: int, a8: int, a9: int)
    ensures x * (a0 + a1 + a2 + a3 + a4 + a5 + a6 + a7 + a8 + a9) ==
            x * a0 + x * a1 + x * a2 + x * a3 + x * a4 + x * a5 + x * a6 + x * a7 + x * a8 + x * a9
  {
  }

  lemma {:induction false} RowsValue(f: Limbs, g: Limbs, n: nat)
    requires n <= 10
    ensures Congruent(P, Value(Rows(f, g, n)), Partial(f, n) * Value(g))
  {
    if n == 0 {
      CongruentBy(P, 0, 0, 0);
    } else {
      var k, v := n - 1, Value(g);
      RowsValue(f, g, k);
      RowValue(k, g);
      NextRow(Rows(f, g, k), f[k], Row(k, g), Partial(f, k), Weight(k), v);
    }
  }

  lemma NextRow(sum: Limbs, x: int, row: Limbs, p: int, w: int, v: int)
    requires Congruent(P, Value(sum), p * v) && Congruent(P, Value(row), w * v)
    ensures Congruent(P, Value(Add(sum, Scale(x, row))), (p + w * x) * v)
  {
    AddRow(Value(sum), p, Value(row), w, x, v);
    ScaleValue(x, row);
    AddValue(sum, Scale(x, row));
  }

  lemma AddRow(a: int, p: int, r: int, w: int, x: int, v: int)
    requires Congruent(P, a, p * v) && Congruent(P, r, w * v)
    ensures Congruent(P, a + x * r, (p + w * x) * v)
  {
    CongruentTimes(P, x, r, w * v);
    CongruentSum(P, a, p * v, x * r, x * (w * v));
    Regroup(p, x, w, v);
  }

  lemma AddValue(a: Limbs, b: Limbs)
    ensures Value(Add(a, b)) == Value(a) + Value(b)
  {
  }

  lemma Regroup(p: int, x: int, w: int, v: int)
    ensures p * v + x * (w * v) == (p + w * x) * v
  {
  }

  /** The ten sums of products that feMul forms. */
  function Coefficients(f: Limbs, g: Limbs): Limbs {
    [
      f[0] * g[0] + (2 * f[1]) * (19 * g[9]) + f[2] * (19 * g[8]) + (2 * f[3]) * (19 * g[7]) + f[4] * (19 * g[6])
          + (2 * f[5]) * (19 * g[5]) + f[6] * (19 * g[4]) + (2 * f[7]) * (19 * g[3]) + f[8] * (19 * g[2])
          + (2 * f[9]) * (19 * g[1]),
      f[0] * g[1] + f[1] * g[0] + f[2] * (19 * g[9]) + f[3] * (19 * g[8]) + f[4] * (19 * g[7]) + f[5] * (19 * g[6])
          + f[6] * (19 * g[5]) + f[7] * (19 * g[4]) + f[8] * (19 * g[3]) + f[9] * (19 * g[2]),
      f[0] * g[2] + (2 * f[1]) * g[1] + f[2] * g[0] + (2 * f[3]) * (19 * g[9]) + f[4] * (19 * g[8])
          + (2 * f[5]) * (19 * g[7]) + f[6] * (19 * g[6]) + (2 * f[7]) * (19 * g[5]) + f[8] * (19 * g[4])
          + (2 * f[9]) * (19 * g[3]),
      f[0] * g[3] + f[1] * g[2] + f[2] * g[1] + f[3] * g[0] + f[4] * (19 * g[9]) + f[5] * (19 * g[8])
          + f[6] * (19 * g[7]) + f[7] * (19 * g[6]) + f[8] * (19 * g[5]) + f[9] * (19 * g[4]),
      f[0] * g[4] + (2 * f[1]) * g[3] + f[2] * g[2] + (2 * f[3]) * g[1] + f[4] * g[0] + (2 * f[5]) * (19 * g[9])
          + f[6] * (19 * g[8]) + (2 * f[7]) * (19 * g[7]) + f[8] * (19 * g[6]) + (2 * f[9]) * (19 * g[5]),
      f[0] * g[5] + f[1] * g[4] + f[2] * g[3] + f[3] * g[2] + f[4] * g[1] + f[5] * g[0] + f[6] * (19 * g[9])
          + f[7] * (19 * g[8]) + f[8] * (19 * g[7]) + f[9] * (19 * g[6]),
      f[0] * g[6] + (2 * f[1]) * g[5] + f[2] * g[4] + (2 * f[3]) * g[3] + f[4] * g[2] + (2 * f[5]) * g[1]
          + f[6] * g[0] + (2 * f[7]) * (19 * g[9]) + f[8] * (19 * g[8]) + (2 * f[9]) * (19 * g[7]),
      f[0] * g[7] + f[1] * g[6] + f[2] * g[5] + f[3] * g[4] + f[4] * g[3] + f[5] * g[2] + f[6] * g[1] + f[7] * g[0]
          + f[8] * (19 * g[9]) + f[9] * (19 * g[8]),
      f[0] * g[8] + (2 * f[1]) * g[7] + f[2] * g[6] + (2 * f[3]) * g[5] + f[4] * g[4] + (2 * f[5]) * g[3]
          + f[6] * g[2] + (2 * f[7]) * g[1] + f[8] * g[0] + (2 * f[9]) * (19 * g[9]),
      f[0] * g[9] + f[1] * g[8] + f[2] * g[7] + f[3] * g[6] + f[4] * g[5] + f[5] * g[4] + f[6] * g[3] + f[7] * g[2]
          + f[8] * g[1] + f[9] * g[0]
    ]
  }

  lemma RowsAt(f: Limbs, g: Limbs, k: nat)
    requires k < 10
    ensures Rows(f, g, 10)[k] == f[0] * Row(0, g)[k] + f[1] * Row(1, g)[k] + f[2] * Row(2, g)[k]
            + f[3] * Row(3, g)[k] + f[4] * Row(4, g)[k] + f[5] * Row(5, g)[k] + f[6] * Row(6, g)[k]
            + f[7] * Row(7, g)[k] + f[8] * Row(8, g)[k] + f[9] * Row(9, g)[k]
  {
    assert Rows(f, g, 1)[k] == f[0] * Row(0, g)[k];
    assert Rows(f, g, 2)[k] == Rows(f, g, 1)[k] + f[1] * Row(1, g)[k];
    assert Rows(f, g, 3)[k] == Rows(f, g, 2)[k] + f[2] * Row(2, g)[k];
    assert Rows(f, g, 4)[k] == Rows(f, g, 3)[k] + f[3] * Row(3, g)[k];
    assert Rows(f, g, 5)[k] == Rows(f, g, 4)[k] + f[4] * Row(4, g)[k];
    assert Rows(f, g, 6)[k] == Rows(f, g, 5)[k] + f[5] * Row(5, g)[k];
    assert Rows(f, g, 7)[k] == Rows(f, g, 6)[k] + f[6] * Row(6, g)[k];
    assert Rows(f, g, 8)[k] == Rows(f, g, 7)[k] + f[7] * Row(7, g)[k];
    assert Rows(f, g, 9)[k] == Rows(f, g, 8)[k] + f[8] * Row(8, g)[k];
  }

  /** Limb k of row i, from the limb of g that it comes from. */
  function Entry(i: nat, k: nat, g: Limbs): int
    requires i < 10 && k < 10
  {
    if k < i then (if i % 2 == 1 && k % 2 == 0 then 38 * g[k + 10 - i] else 19 * g[k + 10 - i])
    else (if i % 2 == 1 && k % 2 == 0 then 2 * g[k - i] else g[k - i])
  }

  lemma {:induction false} RowAt(i: nat, k: nat, g: Limbs)
    requires i < 10 && k < 10
    ensures Row(i, g)[k] == Entry(i, k, g)
  {
    if i >= 2 {
      var r := Row(i - 2, g);
      assert Row(i, g) == ShiftTwo(r);
      RowAt(i - 2, if k < 2 then k + 8 else k - 2, g);
    }
  }

  lemma CoefficientIsRow(f: Limbs, g: Limbs, k: nat)
    requires k < 10
    ensures Coefficients(f, g)[k] == Rows(f, g, 10)[k]
  {
    if k < 5 {
      LowCoefficient(f, g, k);
    } else {
      HighCoefficient(f, g, k);
    }
  }

  lemma Twice(x: int, y: int)
    ensures (2 * x) * y == x * (2 * y) && (2 * x) * (19 * y) == x * (38 * y)
  {
  }

  lemma LowCoefficient(f: Limbs, g: Limbs, k: nat)
    requires 0 <= k < 5
    ensures Coefficients(f, g)[k] == Rows(f, g, 10)[k]
  {
    RowsAt(f, g, k);
    RowAt(0, k, g);
    RowAt(1, k, g);
    RowAt(2, k, g);
    RowAt(3, k, g);
    RowAt(4, k, g);
    RowAt(5, k, g);
    RowAt(6, k, g);
    RowAt(7, k, g);
    RowAt(8, k, g);
    RowAt(9, k, g);
    if k == 0 {
      Twice(f[1], g[9]);
      Twice(f[3], g[7]);
      Twice(f[5], g[5]);
      Twice(f[7], g[3]);
      Twice(f[9], g[1]);
    } else if k == 1 {
    } else if k == 2 {
      Twice(f[1], g[1]);
      Twice(f[3], g[9]);
      Twice(f[5], g[7]);
      Twice(f[7], g[5]);
      Twice(f[9], g[3]);
    } else if k == 3 {
    } else {
      Twice(f[1], g[3]);
      Twice(f[3], g[1]);
      Twice(f[5], g[9]);
      Twice(f[7], g[7]);
      Twice(f[9], g[5]);
    }
  }

  lemma HighCoefficient(f: Limbs, g: Limbs, k: nat)
    requires 5 <= k < 10
    ensures Coefficients(f, g)[k] == Rows(f, g, 10)[k]
  {
    RowsAt(f, g, k);
    RowAt(0, k, g);
    RowAt(1, k, g);
    RowAt(2, k, g);
    RowAt(3, k, g);
    RowAt(4, k, g);
    RowAt(5, k, g);
    RowAt(6, k, g);
    RowAt(7, k, g);
    RowAt(8, k, g);
    RowAt(9, k, g);
    if k == 5 {
    } else if k == 6 {
      Twice(f[1], g[5]);
      Twice(f[3], g[3]);
      Twice(f[5], g[1]);
      Twice(f[7], g[9]);
      Twice(f[9], g[7]);
    } else if k == 7 {
    } else if k == 8 {
      Twice(f[1], g[7]);
      Twice(f[3], g[5]);
      Twice(f[5], g[3]);
      Twice(f[7], g[1]);
      Twice(f[9], g[9]);
    } else {
    }
  }

  lemma PartialIsValue(f: Limbs)
    ensures Partial(f, 10) == Value(f)
  {
    assert Weight(2) == 0x8000000000000 && Weight(3) == 0x20000000000000000000;
    assert Weight(4) == 0x40000000000000000000000000 && Weight(5) == 0x100000000000000000000000000000000;
    assert Weight(6) == 0x200000000000000000000000000000000000000
           && Weight(7) == 0x800000000000000000000000000000000000000000000;
    assert Weight(8) == 0x1000000000000000000000000000000000000000000000000000
           && Weight(9) == 0x4000000000000000000000000000000000000000000000000000000000;
    assert Partial(f, 1) == f[0];
    assert Partial(f, 2) == f[0] + 0x4000000 * f[1];
    assert Partial(f, 3) == f[0] + 0x4000000 * f[1] + 0x8000000000000 * f[2];
    assert Partial(f, 4) == f[0] + 0x4000000 * f[1] + 0x8000000000000 * f[2] + 0x20000000000000000000 * f[3];
    assert Partial(f, 5) == f[0] + 0x4000000 * f[1] + 0x8000000000000 * f[2] + 0x20000000000000000000 * f[3]
           + 0x40000000000000000000000000 * f[4];
    assert Partial(f, 6) == f[0] + 0x4000000 * f[1] + 0x8000000000000 * f[2] + 0x20000000000000000000 * f[3]
           + 0x40000000000000000000000000 * f[4] + 0x100000000000000000000000000000000 * f[5];
    assert Partial(f, 7) == f[0] + 0x4000000 * f[1] + 0x8000000000000 * f[2] + 0x20000000000000000000 * f[3]
           + 0x40000000000000000000000000 * f[4] + 0x100000000000000000000000000000000 * f[5]
           + 0x200000000000000000000000000000000000000 * f[6];
    assert Partial(f, 8) == f[0] + 0x4000000 * f[1] + 0x8000000000000 * f[2] + 0x20000000000000000000 * f[3]
           + 0x40000000000000000000000000 * f[4] + 0x100000000000000000000000000000000 * f[5]
           + 0x200000000000000000000000000000000000000 * f[6]
           + 0x800000000000000000000000000000000000000000000 * f[7];
    assert Partial(f, 9) == f[0] + 0x4000000 * f[1] + 0x8000000000000 * f[2] + 0x20000000000000000000 * f[3]
           + 0x40000000000000000000000000 * f[4] + 0x100000000000000000000000000000000 * f[5]
           + 0x200000000000000000000000000000000000000 * f[6]
           + 0x800000000000000000000000000000000000000000000 * f[7]
           + 0x1000000000000000000000000000000000000000000000000000 * f[8];
  }

  lemma CoefficientsValue(f: Limbs, g: Limbs)
    ensures Congruent(P, Value(Coefficients(f, g)), Value(f) * Value(g))
  {
    forall k | 0 <= k < 10 ensures Coefficients(f, g)[k] == Rows(f, g, 10)[k] {
      CoefficientIsRow(f, g, k);
    }
    assert Coefficients(f, g) == Rows(f, g, 10);
    RowsValue(f, g, 10);
    PartialIsValue(f);
  }

  // ---------------------------------------------------------------- carries

  /** The limb that takes the carry out of limb i. */
  function Next(i: nat): nat {
    if i == 9 then 0 else i + 1
  }

  /** The carry out of limb i when it holds x; it is rounded to nearest, so what stays is signed. */
  function Carry(x: int, i: nat): int {
    if i % 2 == 0 then (x + 0x2000000) / 0x4000000 else (x + 0x1000000) / 0x2000000
  }

  /** One carry: limb i is reduced and what it loses goes to the next limb, or 19-fold to limb 0. */
  function Step(h: Limbs, i: nat): Limbs
    requires i < 10
  {
    var c := Carry(h[i], i);
    h[i := h[i] - (if i % 2 == 0 then 0x4000000 else 0x2000000) * c]
     [Next(i) := h[Next(i)] + (if i == 9 then 19 else 1) * c]
  }

  lemma StepValue(h: Limbs, i: nat)
    requires i < 10
    ensures Congruent(P, Value(Step(h, i)), Value(h))
  {
    if i < 3 {
      StepValueLow(h, i);
    } else if i < 6 {
      StepValueMiddle(h, i);
    } else if i < 9 {
      StepValueHigh(h, i);
    } else {
      StepValueLast(h);
    }
    CongruentBy(P, Value(Step(h, i)), Value(h), if i == 9 then -Carry(h[i], i) else 0);
  }

  lemma StepValueLow(h: Limbs, i: nat)
    requires i < 3
    ensures Value(Step(h, i)) == Value(h)
  {
    if i == 0 {
    } else if i == 1 {
    } else {
    }
  }

  lemma StepValueMiddle(h: Limbs, i: nat)
    requires 3 <= i < 6
    ensures Value(Step(h, i)) == Value(h)
  {
    if i == 3 {
    } else if i == 4 {
    } else {
    }
  }

  lemma StepValueHigh(h: Limbs, i: nat)
    requires 6 <= i < 9
    ensures Value(Step(h, i)) == Value(h)
  {
    if i == 6 {
    } else if i == 7 {
    } else {
    }
  }

  /** The carry out of the last limb comes back nineteen times in the first one. */
  lemma StepValueLast(h: Limbs)
    ensures Value(Step(h, 9)) == Value(h) - P * Carry(h[9], 9)
  {
  }

  /** The limbs that feMul and feSquare carry out of, in their order. */
  function Order(n: nat): (i: nat)
    ensures i < 10
  {
    if n == 0 then 0 else if n == 1 then 4 else if n == 2 then 1 else if n == 3 then 5 else
    if n == 4 then 2 else if n == 5 then 6 else if n == 6 then 3 else if n == 7 then 7 else
    if n == 8 then 4 else if n == 9 then 8 else if n == 10 then 9 else 0
  }

  /** The limbs after the first n carries. */
  function Carried(h: Limbs, n: nat): Limbs
    decreases n, h
  {
    if n == 0 then h else Step(Carried(h, n - 1), Order(n - 1))
  }

  lemma StepFollows(h: Limbs, i: nat, v: int)
    requires i < 10 && Congruent(P, Value(h), v)
    ensures Congruent(P, Value(Step(h, i)), v)
  {
    StepValue(h, i);
    CongruentChain(P, Value(Step(h, i)), Value(h), v);
  }

  lemma {:induction false} CarriedValue(h: Limbs, n: nat)
    ensures Congruent(P, Value(Carried(h, n)), Value(h))
  {
    if n == 0 {
      CongruentBy(P, Value(h), Value(h), 0);
    } else {
      CarriedValue(h, n - 1);
      StepFollows(Carried(h, n - 1), Order(n - 1), Value(h));
    }
  }

  /** The largest sum of ten products that feMul forms: ten times 1.1*2^26 * 19 * 1.1*2^26. */
  const TOP: int := 1035377543111875000

  /**
   * Limits on limb i after the first n carries: TOP at first, 2^60 once it took a carry from the
   * limb before, and half a unit of the next limb after its own carry.
   */
  function LimitOf(n: nat, i: nat): (m: nat)
    ensures m <= 0x1000_0000_0000_0000
  {
    if i == 0 then (if n < 1 then TOP else if n == 11 then 0xa000000000 else 0x2000000)
    else if i == 1 then (if n < 1 then TOP else if n < 3 then 0x1000_0000_0000_0000 else if n < 12 then 0x1000000
        else 18454937)
    else if i == 2 then (if n < 3 then TOP else if n < 5 then 0x1000_0000_0000_0000 else 0x2000000)
    else if i == 3 then (if n < 5 then TOP else if n < 7 then 0x1000_0000_0000_0000 else 0x1000000)
    else if i == 4 then (if n < 2 then TOP else if n < 7 || 8 < n then 0x2000000 else 0x900000000)
    else if i == 5 then (if n < 2 then TOP else if n < 4 then 0x1000_0000_0000_0000 else if n < 9 then 0x1000000
        else 18454937)
    else if i == 6 then (if n < 4 then TOP else if n < 6 then 0x1000_0000_0000_0000 else 0x2000000)
    else if i == 7 then (if n < 6 then TOP else if n < 8 then 0x1000_0000_0000_0000 else 0x1000000)
    else if i == 8 then (if n < 8 then TOP else if n < 10 then 0x1000_0000_0000_0000 else 0x2000000)
    else (if n < 10 then TOP else if n < 11 then 0x1000_0000_0000_0000 else 0x1000000)
  }

  predicate Limited(h: Limbs, n: nat) {
    forall i :: 0 <= i < 10 ==> Between(h[i], LimitOf(n, i))
  }

  lemma StepLimited(h: Limbs, n: nat)
    requires n < 12 && Limited(h, n)
    ensures Limited(Step(h, Order(n)), n + 1)
  {
    var i := Order(n);
    assert Between(h[i], LimitOf(n, i)) && Between(h[Next(i)], LimitOf(n, Next(i)));
    forall j | 0 <= j < 10 ensures Between(Step(h, i)[j], LimitOf(n + 1, j)) {
      assert Between(h[j], LimitOf(n, j));
    }
  }

  lemma {:induction false} CarriedLimited(h: Limbs, n: nat)
    requires n <= 12 && Limited(h, 0)
    ensures Limited(Carried(h, n), n)
  {
    if n > 0 {
      CarriedLimited(h, n - 1);
      StepLimited(Carried(h, n - 1), n - 1);
    }
  }

  lemma LimitedIsTight(h: Limbs)
    requires Limited(h, 12)
    ensures Tight(h)
  {
    forall i | 0 <= i < 10 ensures Between(h[i], if i % 2 == 0 then 36909875 else 18454937) {
      assert Between(h[i], LimitOf(12, i));
    }
  }

  lemma CoefficientBound(f: Limbs, g: Limbs, k: nat)
    requires Loose(f) && Loose(g) && k < 10
    ensures Between(Coefficients(f, g)[k], TOP)
  {
    RowsAt(f, g, k);
    CoefficientIsRow(f, g, k);
    forall i | 0 <= i < 10 ensures Between(f[i] * Row(i, g)[k], 103537754311187500) {
      TermBound(f, g, i, k);
    }
    assert forall i :: 0 <= i < 10 ==> Between(f[i] * Row(i, g)[k], 103537754311187500);
  }

  lemma TermBound(f: Limbs, g: Limbs, i: nat, k: nat)
    requires Loose(f) && Loose(g) && i < 10 && k < 10
    ensures Between(f[i] * Row(i, g)[k], 103537754311187500)
  {
    var j := if k < i then k + 10 - i else k - i;
    RowAt(i, k, g);
    assert Between(f[i], if i % 2 == 0 then 73819750 else 36909875);
    assert Between(g[j], if j % 2 == 0 then 73819750 else 36909875);
    if i % 2 == 0 {
      assert Between(Row(i, g)[k], 1402575250);
      ProductBound(f[i], Row(i, g)[k], 73819750, 1402575250);
    } else {
      assert Between(Row(i, g)[k], 1402575250);
      ProductBound(f[i], Row(i, g)[k], 36909875, 1402575250);
    }
  }

  lemma ProductBound(a: int, b: int, m: nat, n: nat)
    requires Between(a, m) && Between(b, n)
    ensures Between(a * b, m * n)
  {
    var x: nat, y: nat := if a < 0 then -a else a, if b < 0 then -b else b;
    Monotone(x, m, y);
    Monotone(y, n, m);
    assert a * b == x * y || a * b == -(x * y);
  }

  lemma Monotone(x: nat, m: nat, y: nat)
    requires x <= m
    ensures x * y <= m * y && y * x <= y * m
  {
    assert (m - x) * y >= 0;
  }

  /** What feMul computes. */
  function Mul(f: Limbs, g: Limbs): Limbs {
    Carried(Coefficients(f, g), 12)
  }

  /** Multiplication keeps its promise: the limbs are tight and stand for the product modulo 2^255-19. */
  lemma MulCorrect(f: Limbs, g: Limbs)
    requires Loose(f) && Loose(g)
    ensures Tight(Mul(f, g)) && Congruent(P, Value(Mul(f, g)), Value(f) * Value(g))
  {
    CoefficientsLimited(f, g);
    CarriedLimited(Coefficients(f, g), 12);
    LimitedIsTight(Mul(f, g));
    CarriedValue(Coefficients(f, g), 12);
    CoefficientsValue(f, g);
    CongruentChain(P, Value(Mul(f, g)), Value(Coefficients(f, g)), Value(f) * Value(g));
  }

  lemma CoefficientsLimited(f: Limbs, g: Limbs)
    requires Loose(f) && Loose(g)
    ensures Limited(Coefficients(f, g), 0)
  {
    forall k | 0 <= k < 10 ensures Between(Coefficients(f, g)[k], LimitOf(0, k)) {
      CoefficientBound(f, g, k);
    }
  }

  // ---------------------------------------------------------------- the code

  /** One carry, in 64-bit words: the one numbered n of the chain that started from h. */
  method CarryStep(t: array<int64>, i: nat, ghost n: nat, ghost h: Limbs)
    requires t.Length == 10 && n < 12 && i == Order(n) && Limited(t[..], n) && t[..] == Carried(h, n)
    modifies t
    ensures Limited(t[..], n + 1) && t[..] == Carried(h, n + 1)
  {
    StepLimited(t[..], n);
    assert Between(t[..][i], LimitOf(n, i)) && Between(t[..][Next(i)], LimitOf(n, Next(i)));
    var c: int64, kept: int64;
    if i % 2 == 0 {
      c := (t[i] + 0x2000000) / 0x4000000;
      kept := t[i] - c * 0x4000000;
    } else {
      c := (t[i] + 0x1000000) / 0x2000000;
      kept := t[i] - c * 0x2000000;
    }
    var j := if i == 9 then 0 else i + 1;
    t[j] := t[j] + (if i == 9 then 19 * c else c);
    t[i] := kept;
    assert t[..] == Step(old(t[..]), i);
  }

  /** The twelve carries that end feMul and feSquare. */
  method CarryChain(t: array<int64>)
    requires t.Length == 10 && Limited(t[..], 0)
    modifies t
    ensures t[..] == Carried(old(t[..]), 12) && Tight(t[..])
  {
    ghost var h := t[..];
    CarryFront(t, 0, h);
    CarryMiddle(t, 4, h);
    CarryBack(t, 8, h);
    LimitedIsTight(t[..]);
  }

  method CarryFront(t: array<int64>, ghost n: nat, ghost h: Limbs)
    requires t.Length == 10 && n == 0 && Limited(t[..], n) && t[..] == Carried(h, n)
    modifies t
    ensures Limited(t[..], n + 4) && t[..] == Carried(h, n + 4)
  {
    CarryStep(t, 0, n, h);
    CarryStep(t, 4, n + 1, h);
    CarryStep(t, 1, n + 2, h);
    CarryStep(t, 5, n + 3, h);
  }

  method CarryMiddle(t: array<int64>, ghost n: nat, ghost h: Limbs)
    requires t.Length == 10 && n == 4 && Limited(t[..], n) && t[..] == Carried(h, n)
    modifies t
    ensures Limited(t[..], n + 4) && t[..] == Carried(h, n + 4)
  {
    CarryStep(t, 2, n, h);
    CarryStep(t, 6, n + 1, h);
    CarryStep(t, 3, n + 2, h);
    CarryStep(t, 7, n + 3, h);
  }

  method CarryBack(t: array<int64>, ghost n: nat, ghost h: Limbs)
    requires t.Length == 10 && n == 8 && Limited(t[..], n) && t[..] == Carried(h, n)
    modifies t
    ensures Limited(t[..], n + 4) && t[..] == Carried(h, n + 4)
  {
    CarryStep(t, 4, n, h);
    CarryStep(t, 8, n + 1, h);
    CarryStep(t, 9, n + 2, h);
    CarryStep(t, 0, n + 3, h);
  }

  /** A product of two 32-bit factors in a 64-bit word. */
  method Product(a: int32, b: int32) returns (p: int64)
    requires Between(a, 147639500) && Between(b, 1402575250)
    ensures p == a * b && Between(p, 207075508622375000)
    ensures Between(a, 73819750) ==> Between(p, 103537754311187500)
  {
    ProductBound(a, b, 147639500, 1402575250);
    if Between(a, 73819750) {
      ProductBound(a, b, 73819750, 1402575250);
    }
    p := a * b;
  }

  /** A sum of ten products in a 64-bit word. */
  method Dot10(a0: int32, b0: int32, a1: int32, b1: int32, a2: int32, b2: int32, a3: int32, b3: int32, a4: int32,
      b4: int32, a5: int32, b5: int32, a6: int32, b6: int32, a7: int32, b7: int32, a8: int32, b8: int32, a9: int32,
      b9: int32) returns (h: int64)
    requires Between(a0, 73819750) && Between(b0, 1402575250)
    requires Between(a1, 73819750) && Between(b1, 1402575250)
    requires Between(a2, 73819750) && Between(b2, 1402575250)
    requires Between(a3, 73819750) && Between(b3, 1402575250)
    requires Between(a4, 73819750) && Between(b4, 1402575250)
    requires Between(a5, 73819750) && Between(b5, 1402575250)
    requires Between(a6, 73819750) && Between(b6, 1402575250)
    requires Between(a7, 73819750) && Between(b7, 1402575250)
    requires Between(a8, 73819750) && Between(b8, 1402575250)
    requires Between(a9, 73819750) && Between(b9, 1402575250)
    ensures h == a0 * b0 + a1 * b1 + a2 * b2 + a3 * b3 + a4 * b4 + a5 * b5 + a6 * b6 + a7 * b7 + a8 * b8 + a9 * b9
  {
    var p0 := Product(a0, b0);
    var p1 := Product(a1, b1);
    var p2 := Product(a2, b2);
    var p3 := Product(a3, b3);
    var p4 := Product(a4, b4);
    var p5 := Product(a5, b5);
    var p6 := Product(a6, b6);
    var p7 := Product(a7, b7);
    var p8 := Product(a8, b8);
    var p9 := Product(a9, b9);
    h := p0 + p1 + p2 + p3 + p4 + p5 + p6 + p7 + p8 + p9;
  }

  /** A sum of six products in a 64-bit word, of factors twice as large. */
  method Dot6(a0: int32, b0: int32, a1: int32, b1: int32, a2: int32, b2: int32, a3: int32, b3: int32, a4: int32,
      b4: int32, a5: int32, b5: int32) returns (h: int64)
    requires Between(a0, 147639500) && Between(b0, 1402575250)
    requires Between(a1, 147639500) && Between(b1, 1402575250)
    requires Between(a2, 147639500) && Between(b2, 1402575250)
    requires Between(a3, 147639500) && Between(b3, 1402575250)
    requires Between(a4, 147639500) && Between(b4, 1402575250)
    requires Between(a5, 147639500) && Between(b5, 1402575250)
    ensures h == a0 * b0 + a1 * b1 + a2 * b2 + a3 * b3 + a4 * b4 + a5 * b5
  {
    var p0 := Product(a0, b0);
    var p1 := Product(a1, b1);
    var p2 := Product(a2, b2);
    var p3 := Product(a3, b3);
    var p4 := Product(a4, b4);
    var p5 := Product(a5, b5);
    h := p0 + p1 + p2 + p3 + p4 + p5;
  }

  /** A sum of five products in a 64-bit word, of factors twice as large. */
  method Dot5(a0: int32, b0: int32, a1: int32, b1: int32, a2: int32, b2: int32, a3: int32, b3: int32, a4: int32,
      b4: int32) returns (h: int64)
    requires Between(a0, 147639500) && Between(b0, 1402575250)
    requires Between(a1, 147639500) && Between(b1, 1402575250)
    requires Between(a2, 147639500) && Between(b2, 1402575250)
    requires Between(a3, 147639500) && Between(b3, 1402575250)
    requires Between(a4, 147639500) && Between(b4, 1402575250)
    ensures h == a0 * b0 + a1 * b1 + a2 * b2 + a3 * b3 + a4 * b4
  {
    var p0 := Product(a0, b0);
    var p1 := Product(a1, b1);
    var p2 := Product(a2, b2);
    var p3 := Product(a3, b3);
    var p4 := Product(a4, b4);
    h := p0 + p1 + p2 + p3 + p4;
  }

  /** The ten sums of products of feMul. */
  method Products(f: array<int32>, g: array<int32>) returns (t: array<int64>)
    requires f.Length == 10 && g.Length == 10 && Loose(f[..]) && Loose(g[..])
    ensures fresh(t) && t.Length == 10 && t[..] == Coefficients(f[..], g[..])
  {
    LooseLimbs(f[..]);
    LooseLimbs(g[..]);
    var f0, f1, f2, f3, f4, f5, f6, f7, f8, f9 := f[0], f[1], f[2], f[3], f[4], f[5], f[6], f[7], f[8], f[9];
    var g0, g1, g2, g3, g4, g5, g6, g7, g8, g9 := g[0], g[1], g[2], g[3], g[4], g[5], g[6], g[7], g[8], g[9];
    var g1_19: int32, g2_19: int32, g3_19: int32, g4_19: int32, g5_19: int32, g6_19: int32, g7_19: int32,
        g8_19: int32, g9_19: int32 := 19 * g1, 19 * g2, 19 * g3, 19 * g4, 19 * g5, 19 * g6, 19 * g7, 19 * g8, 19 * g9;
    var f1_2: int32, f3_2: int32, f5_2: int32, f7_2: int32, f9_2: int32 := 2 * f1, 2 * f3, 2 * f5, 2 * f7, 2 * f9;
    var h0 := Dot10(f0, g0, f1_2, g9_19, f2, g8_19, f3_2, g7_19, f4, g6_19, f5_2, g5_19, f6, g4_19, f7_2, g3_19, f8,
        g2_19, f9_2, g1_19);
    var h1 := Dot10(f0, g1, f1, g0, f2, g9_19, f3, g8_19, f4, g7_19, f5, g6_19, f6, g5_19, f7, g4_19, f8, g3_19, f9,
        g2_19);
    var h2 := Dot10(f0, g2, f1_2, g1, f2, g0, f3_2, g9_19, f4, g8_19, f5_2, g7_19, f6, g6_19, f7_2, g5_19, f8, g4_19,
        f9_2, g3_19);
    var h3 := Dot10(f0, g3, f1, g2, f2, g1, f3, g0, f4, g9_19, f5, g8_19, f6, g7_19, f7, g6_19, f8, g5_19, f9, g4_19);
    var h4 := Dot10(f0, g4, f1_2, g3, f2, g2, f3_2, g1, f4, g0, f5_2, g9_19, f6, g8_19, f7_2, g7_19, f8, g6_19, f9_2,
        g5_19);
    var h5 := Dot10(f0, g5, f1, g4, f2, g3, f3, g2, f4, g1, f5, g0, f6, g9_19, f7, g8_19, f8, g7_19, f9, g6_19);
    var h6 := Dot10(f0, g6, f1_2, g5, f2, g4, f3_2, g3, f4, g2, f5_2, g1, f6, g0, f7_2, g9_19, f8, g8_19, f9_2, g7_19);
    var h7 := Dot10(f0, g7, f1, g6, f2, g5, f3, g4, f4, g3, f5, g2, f6, g1, f7, g0, f8, g9_19, f9, g8_19);
    var h8 := Dot10(f0, g8, f1_2, g7, f2, g6, f3_2, g5, f4, g4, f5_2, g3, f6, g2, f7_2, g1, f8, g0, f9_2, g9_19);
    var h9 := Dot10(f0, g9, f1, g8, f2, g7, f3, g6, f4, g5, f5, g4, f6, g3, f7, g2, f8, g1, f9, g0);
    t := new int64[10] [h0, h1, h2, h3, h4, h5, h6, h7, h8, h9];
  }

  /** feMul: h may be the same array as f or g. */
  method FeMul(h: array<int32>, f: array<int32>, g: array<int32>)
    requires h.Length == 10 && f.Length == 10 && g.Length == 10 && Loose(f[..]) && Loose(g[..])
    modifies h
    ensures h[..] == Mul(old(f[..]), old(g[..])) && Tight(h[..])
    ensures Congruent(P, Value(h[..]), Value(old(f[..])) * Value(old(g[..])))
  {
    MulCorrect(f[..], g[..]);
    CoefficientsLimited(f[..], g[..]);
    var t := Products(f, g);
    CarryChain(t);
    Store(h, t);
  }

  method Store(h: array<int32>, t: array<int64>)
    requires h.Length == 10 && t.Length == 10 && Tight(t[..])
    modifies h
    ensures h[..] == t[..]
  {
    assert forall i :: 0 <= i < 10 ==> Between(t[..][i], 36909875);
    h[0], h[1], h[2], h[3], h[4] := t[0], t[1], t[2], t[3], t[4];
    h[5], h[6], h[7], h[8], h[9] := t[5], t[6], t[7], t[8], t[9];
  }

  /** The ten sums of products of feSquare. */
  function SquareSums(f: Limbs): Limbs {
    [
      f[0] * f[0] + (2 * f[1]) * (38 * f[9]) + (2 * f[2]) * (19 * f[8]) + (2 * f[3]) * (38 * f[7])
          + (2 * f[4]) * (19 * f[6]) + f[5] * (38 * f[5]),
      (2 * f[0]) * f[1] + f[2] * (38 * f[9]) + (2 * f[3]) * (19 * f[8]) + f[4] * (38 * f[7]) + (2 * f[5]) * (19 * f[6]),
      (2 * f[0]) * f[2] + (2 * f[1]) * f[1] + (2 * f[3]) * (38 * f[9]) + (2 * f[4]) * (19 * f[8])
          + (2 * f[5]) * (38 * f[7]) + f[6] * (19 * f[6]),
      (2 * f[0]) * f[3] + (2 * f[1]) * f[2] + f[4] * (38 * f[9]) + (2 * f[5]) * (19 * f[8]) + f[6] * (38 * f[7]),
      (2 * f[0]) * f[4] + (2 * f[1]) * (2 * f[3]) + f[2] * f[2] + (2 * f[5]) * (38 * f[9]) + (2 * f[6]) * (19 * f[8])
          + f[7] * (38 * f[7]),
      (2 * f[0]) * f[5] + (2 * f[1]) * f[4] + (2 * f[2]) * f[3] + f[6] * (38 * f[9]) + (2 * f[7]) * (19 * f[8]),
      (2 * f[0]) * f[6] + (2 * f[1]) * (2 * f[5]) + (2 * f[2]) * f[4] + (2 * f[3]) * f[3] + (2 * f[7]) * (38 * f[9])
          + f[8] * (19 * f[8]),
      (2 * f[0]) * f[7] + (2 * f[1]) * f[6] + (2 * f[2]) * f[5] + (2 * f[3]) * f[4] + f[8] * (38 * f[9]),
      (2 * f[0]) * f[8] + (2 * f[1]) * (2 * f[7]) + (2 * f[2]) * f[6] + (2 * f[3]) * (2 * f[5]) + f[4] * f[4]
          + f[9] * (38 * f[9]),
      (2 * f[0]) * f[9] + (2 * f[1]) * f[8] + (2 * f[2]) * f[7] + (2 * f[3]) * f[6] + (2 * f[4]) * f[5]
    ]
  }

  lemma EvenTermsFold(f0: int, f1: int, f2: int, f3: int, f4: int, f5: int, f6: int, f7: int, f8: int, f9: int)
    ensures f0 * f0 + (2 * f1) * (38 * f9) + (2 * f2) * (19 * f8) + (2 * f3) * (38 * f7) + (2 * f4) * (19 * f6)
            + f5 * (38 * f5) == f0 * f0 + (2 * f1) * (19 * f9) + f2 * (19 * f8) + (2 * f3) * (19 * f7)
            + f4 * (19 * f6) + (2 * f5) * (19 * f5) + f6 * (19 * f4) + (2 * f7) * (19 * f3) + f8 * (19 * f2)
            + (2 * f9) * (19 * f1)
    ensures (2 * f0) * f2 + (2 * f1) * f1 + (2 * f3) * (38 * f9) + (2 * f4) * (19 * f8) + (2 * f5) * (38 * f7)
            + f6 * (19 * f6) == f0 * f2 + (2 * f1) * f1 + f2 * f0 + (2 * f3) * (19 * f9) + f4 * (19 * f8)
            + (2 * f5) * (19 * f7) + f6 * (19 * f6) + (2 * f7) * (19 * f5) + f8 * (19 * f4) + (2 * f9) * (19 * f3)
    ensures (2 * f0) * f4 + (2 * f1) * (2 * f3) + f2 * f2 + (2 * f5) * (38 * f9) + (2 * f6) * (19 * f8)
            + f7 * (38 * f7) == f0 * f4 + (2 * f1) * f3 + f2 * f2 + (2 * f3) * f1 + f4 * f0 + (2 * f5) * (19 * f9)
            + f6 * (19 * f8) + (2 * f7) * (19 * f7) + f8 * (19 * f6) + (2 * f9) * (19 * f5)
    ensures (2 * f0) * f6 + (2 * f1) * (2 * f5) + (2 * f2) * f4 + (2 * f3) * f3 + (2 * f7) * (38 * f9)
            + f8 * (19 * f8) == f0 * f6 + (2 * f1) * f5 + f2 * f4 + (2 * f3) * f3 + f4 * f2 + (2 * f5) * f1 + f6 * f0
            + (2 * f7) * (19 * f9) + f8 * (19 * f8) + (2 * f9) * (19 * f7)
    ensures (2 * f0) * f8 + (2 * f1) * (2 * f7) + (2 * f2) * f6 + (2 * f3) * (2 * f5) + f4 * f4 + f9 * (38 * f9) ==
            f0 * f8 + (2 * f1) * f7 + f2 * f6 + (2 * f3) * f5 + f4 * f4 + (2 * f5) * f3 + f6 * f2 + (2 * f7) * f1
            + f8 * f0 + (2 * f9) * (19 * f9)
  {
  }

  lemma OddTermsFold(f0: int, f1: int, f2: int, f3: int, f4: int, f5: int, f6: int, f7: int, f8: int, f9: int)
    ensures (2 * f0) * f1 + f2 * (38 * f9) + (2 * f3) * (19 * f8) + f4 * (38 * f7) + (2 * f5) * (19 * f6) ==
            f0 * f1 + f1 * f0 + f2 * (19 * f9) + f3 * (19 * f8) + f4 * (19 * f7) + f5 * (19 * f6) + f6 * (19 * f5)
            + f7 * (19 * f4) + f8 * (19 * f3) + f9 * (19 * f2)
    ensures (2 * f0) * f3 + (2 * f1) * f2 + f4 * (38 * f9) + (2 * f5) * (19 * f8) + f6 * (38 * f7) ==
            f0 * f3 + f1 * f2 + f2 * f1 + f3 * f0 + f4 * (19 * f9) + f5 * (19 * f8) + f6 * (19 * f7) + f7 * (19 * f6)
            + f8 * (19 * f5) + f9 * (19 * f4)
    ensures (2 * f0) * f5 + (2 * f1) * f4 + (2 * f2) * f3 + f6 * (38 * f9) + (2 * f7) * (19 * f8) ==
            f0 * f5 + f1 * f4 + f2 * f3 + f3 * f2 + f4 * f1 + f5 * f0 + f6 * (19 * f9) + f7 * (19 * f8)
            + f8 * (19 * f7) + f9 * (19 * f6)
    ensures (2 * f0) * f7 + (2 * f1) * f6 + (2 * f2) * f5 + (2 * f3) * f4 + f8 * (38 * f9) ==
            f0 * f7 + f1 * f6 + f2 * f5 + f3 * f4 + f4 * f3 + f5 * f2 + f6 * f1 + f7 * f0 + f8 * (19 * f9)
            + f9 * (19 * f8)
    ensures (2 * f0) * f9 + (2 * f1) * f8 + (2 * f2) * f7 + (2 * f3) * f6 + (2 * f4) * f5 ==
            f0 * f9 + f1 * f8 + f2 * f7 + f3 * f6 + f4 * f5 + f5 * f4 + f6 * f3 + f7 * f2 + f8 * f1 + f9 * f0
  {
  }

  lemma SquareSumsFold(f: Limbs)
    ensures SquareSums(f) == Coefficients(f, f)
  {
    EvenTermsFold(f[0], f[1], f[2], f[3], f[4], f[5], f[6], f[7], f[8], f[9]);
    OddTermsFold(f[0], f[1], f[2], f[3], f[4], f[5], f[6], f[7], f[8], f[9]);
  }

  lemma LooseLimbs(f: Limbs)
    requires Loose(f)
    ensures Between(f[0], 73819750) && Between(f[2], 73819750) && Between(f[4], 73819750)
    ensures Between(f[6], 73819750) && Between(f[8], 73819750)
    ensures Between(f[1], 36909875) && Between(f[3], 36909875) && Between(f[5], 36909875)
    ensures Between(f[7], 36909875) && Between(f[9], 36909875)
  {
    assert forall i :: 0 <= i < 10 ==> Between(f[i], if i % 2 == 0 then 73819750 else 36909875);
  }

  /** The ten sums of products of feSquare, which folds the equal cross terms together. */
  method Squares(f: array<int32>) returns (t: array<int64>)
    requires f.Length == 10 && Loose(f[..])
    ensures fresh(t) && t.Length == 10 && t[..] == Coefficients(f[..], f[..])
  {
    LooseLimbs(f[..]);
    var f0, f1, f2, f3, f4, f5, f6, f7, f8, f9 := f[0], f[1], f[2], f[3], f[4], f[5], f[6], f[7], f[8], f[9];
    var f0_2: int32, f1_2: int32, f2_2: int32, f3_2: int32, f4_2: int32, f5_2: int32, f6_2: int32,
        f7_2: int32 := 2 * f0, 2 * f1, 2 * f2, 2 * f3, 2 * f4, 2 * f5, 2 * f6, 2 * f7;
    var f5_38: int32, f6_19: int32, f7_38: int32, f8_19: int32, f9_38: int32 := 38 * f5, 19 * f6, 38 * f7, 19 * f8,
        38 * f9;
    var h0 := Dot6(f0, f0, f1_2, f9_38, f2_2, f8_19, f3_2, f7_38, f4_2, f6_19, f5, f5_38);
    var h1 := Dot5(f0_2, f1, f2, f9_38, f3_2, f8_19, f4, f7_38, f5_2, f6_19);
    var h2 := Dot6(f0_2, f2, f1_2, f1, f3_2, f9_38, f4_2, f8_19, f5_2, f7_38, f6, f6_19);
    var h3 := Dot5(f0_2, f3, f1_2, f2, f4, f9_38, f5_2, f8_19, f6, f7_38);
    var h4 := Dot6(f0_2, f4, f1_2, f3_2, f2, f2, f5_2, f9_38, f6_2, f8_19, f7, f7_38);
    var h5 := Dot5(f0_2, f5, f1_2, f4, f2_2, f3, f6, f9_38, f7_2, f8_19);
    var h6 := Dot6(f0_2, f6, f1_2, f5_2, f2_2, f4, f3_2, f3, f7_2, f9_38, f8, f8_19);
    var h7 := Dot5(f0_2, f7, f1_2, f6, f2_2, f5, f3_2, f4, f8, f9_38);
    var h8 := Dot6(f0_2, f8, f1_2, f7_2, f2_2, f6, f3_2, f5_2, f4, f4, f9, f9_38);
    var h9 := Dot5(f0_2, f9, f1_2, f8, f2_2, f7, f3_2, f6, f4_2, f5);
    t := new int64[10] [h0, h1, h2, h3, h4, h5, h6, h7, h8, h9];
    assert t[..] == SquareSums(f[..]);
    SquareSumsFold(f[..]);
  }

  /** feSquare: the same limbs as feMul(f, f), and h may be the same array as f. */
  method FeSquare(h: array<int32>, f: array<int32>)
    requires h.Length == 10 && f.Length == 10 && Loose(f[..])
    modifies h
    ensures h[..] == Mul(old(f[..]), old(f[..])) && Tight(h[..])
    ensures Congruent(P, Value(h[..]), Value(old(f[..])) * Value(old(f[..])))
  {
    MulCorrect(f[..], f[..]);
    CoefficientsLimited(f[..], f[..]);
    var t := Squares(f);
    CarryChain(t);
    Store(h, t);
  }

  // ---------------------------------------------------------------- inversion

  /** Limbs that stand for z to the power e and that can be multiplied. */
  ghost predicate IsPower(h: Limbs, z: int, e: nat) {
    Loose(h) && Congruent(P, Value(h), Pow(z, e))
  }

  lemma PowerProduct(h: Limbs, f: Limbs, g: Limbs, z: int, a: nat, b: nat)
    requires Tight(h) && Congruent(P, Value(h), Value(f) * Value(g))
    requires Congruent(P, Value(f), Pow(z, a)) && Congruent(P, Value(g), Pow(z, b))
    ensures IsPower(h, z, a + b)
  {
    TightIsLoose(h);
    CongruentProduct(P, Value(f), Pow(z, a), Value(g), Pow(z, b));
    PowSum(z, a, b);
    CongruentChain(P, Value(h), Value(f) * Value(g), Pow(z, a + b));
  }

  lemma TightIsLoose(h: Limbs)
    requires Tight(h)
    ensures Loose(h)
  {
    forall i | 0 <= i < 10 ensures Between(h[i], if i % 2 == 0 then 73819750 else 36909875) {
      assert Between(h[i], if i % 2 == 0 then 36909875 else 18454937);
    }
  }

  /** e times 2^n. */
  function Doubled(e: nat, n: nat): nat {
    if n == 0 then e else 2 * Doubled(e, n - 1)
  }

  /** The square of a power of z. */
  method SquarePower(h: array<int32>, f: array<int32>, ghost z: int, ghost e: nat)
    requires h.Length == 10 && f.Length == 10 && IsPower(f[..], z, e)
    modifies h
    ensures IsPower(h[..], z, e + e)
  {
    ghost var f0: Limbs := f[..];
    FeSquare(h, f);
    PowerProduct(h[..], f0, f0, z, e, e);
  }

  /** The pattern that feInvert repeats: a first squaring into out, then n - 1 more in place. */
  method SquareTimes(out: array<int32>, f: array<int32>, n: nat, ghost z: int, ghost e: nat, ghost r: nat)
    requires out.Length == 10 && f.Length == 10 && 1 <= n && r == e * TwoTo(n)
    requires IsPower(f[..], z, e)
    modifies out
    ensures IsPower(out[..], z, r)
  {
    SquarePower(out, f, z, e);
    var i := 1;
    ghost var reached := e + e;
    while i < n
      invariant 1 <= i <= n && reached == Doubled(e, i)
      invariant IsPower(out[..], z, reached)
    {
      SquarePower(out, out, z, reached);
      reached := reached + reached;
      i := i + 1;
    }
    DoubledIs(e, n);
  }

  function TwoTo(n: nat): (p: nat)
    ensures p >= 1
  {
    if n == 0 then 1 else 2 * TwoTo(n - 1)
  }

  lemma {:induction false} DoubledIs(e: nat, n: nat)
    ensures Doubled(e, n) == e * TwoTo(n)
  {
    if n > 0 {
      DoubledIs(e, n - 1);
      Associative(e, 2, TwoTo(n - 1));
    }
  }

  lemma {:induction false} TwoToSum(a: nat, b: nat)
    ensures TwoTo(a + b) == TwoTo(a) * TwoTo(b)
  {
    if b > 0 {
      TwoToSum(a, b - 1);
      Associative(TwoTo(a), TwoTo(b - 1), 2);
    }
  }

  lemma TwoToTable()
    ensures TwoTo(5) == 0x20 && TwoTo(10) == 0x400 && TwoTo(20) == 0x10_0000
    ensures TwoTo(50) == 0x4_0000_0000_0000 && TwoTo(100) == 0x10_0000_0000_0000_0000_0000_0000
  {
    TwoToSum(5, 5);
    TwoToTwice(10, 20);
    TwoToTwice(20, 40);
    TwoToSum(40, 10);
    TwoToTwice(50, 100);
  }

  lemma TwoToTwice(a: nat, b: nat)
    requires b == a + a
    ensures TwoTo(b) == TwoTo(a) * TwoTo(a)
  {
    TwoToSum(a, a);
  }

  /** A product of two powers of z. */
  method MulPowers(h: array<int32>, f: array<int32>, g: array<int32>, ghost z: int, ghost a: nat, ghost b: nat,
      ghost r: nat)
    requires h.Length == 10 && f.Length == 10 && g.Length == 10
    requires IsPower(f[..], z, a) && IsPower(g[..], z, b) && r == a + b
    modifies h
    ensures IsPower(h[..], z, r) && Tight(h[..])
  {
    ghost var f0: Limbs, g0: Limbs := f[..], g[..];
    FeMul(h, f, g);
    PowerProduct(h[..], f0, g0, z, a, b);
  }

  /** The beginning of feInvert: z^11 and z^31. */
  method Start(t0: array<int32>, t1: array<int32>, t2: array<int32>, z: array<int32>, ghost v: int)
    requires t0.Length == 10 && t1.Length == 10 && t2.Length == 10 && z.Length == 10
    requires t0 != t1 && t0 != t2 && t1 != t2 && z != t0 && z != t1 && z != t2
    requires IsPower(z[..], v, 1)
    modifies t0, t1, t2
    ensures IsPower(t0[..], v, 11) && IsPower(t1[..], v, 31)
  {
    SquareTimes(t0, z, 1, v, 1, 2);
    SquareTimes(t1, t0, 2, v, 2, 8);
    MulPowers(t1, z, t1, v, 1, 8, 9);
    MulPowers(t0, t0, t1, v, 2, 9, 11);
    SquareTimes(t2, t0, 1, v, 11, 22);
    MulPowers(t1, t1, t2, v, 9, 22, 31);
  }

  /** The middle of feInvert: from z^31 to z^(2^255-2^5). */
  method Climb(t1: array<int32>, t2: array<int32>, t3: array<int32>, ghost v: int)
    requires t1.Length == 10 && t2.Length == 10 && t3.Length == 10 && t1 != t2 && t1 != t3 && t2 != t3
    requires IsPower(t1[..], v, 31)
    modifies t1, t2, t3
    ensures IsPower(t1[..], v, P - 13)
  {
    TwoToTable();
    SquareTimes(t2, t1, 5, v, 31, 0x3e0);
    MulPowers(t1, t2, t1, v, 0x3e0, 31, 0x3ff);
    SquareTimes(t2, t1, 10, v, 0x3ff, 0xffc00);
    MulPowers(t2, t2, t1, v, 0xffc00, 0x3ff, 0xfffff);
    SquareTimes(t3, t2, 20, v, 0xfffff, 0xfffff00000);
    MulPowers(t2, t3, t2, v, 0xfffff00000, 0xfffff, 0xffffffffff);
    SquareTimes(t2, t2, 10, v, 0xffffffffff, 0x3fffffffffc00);
    MulPowers(t1, t2, t1, v, 0x3fffffffffc00, 0x3ff, 0x3ffffffffffff);
    ClimbOn(t1, t2, t3, v);
  }

  method ClimbOn(t1: array<int32>, t2: array<int32>, t3: array<int32>, ghost v: int)
    requires t1.Length == 10 && t2.Length == 10 && t3.Length == 10 && t1 != t2 && t1 != t3 && t2 != t3
    requires IsPower(t1[..], v, 0x3ffffffffffff)
    modifies t1, t2, t3
    ensures IsPower(t1[..], v, P - 13)
  {
    TwoToTable();
    SquareTimes(t2, t1, 50, v, 0x3ffffffffffff, 0xffffffffffffc000000000000);
    MulPowers(t2, t2, t1, v, 0xffffffffffffc000000000000, 0x3ffffffffffff, 0xfffffffffffffffffffffffff);
    SquareTimes(t3, t2, 100, v, 0xfffffffffffffffffffffffff, 0xfffffffffffffffffffffffff0000000000000000000000000);
    MulPowers(t2, t3, t2, v, 0xfffffffffffffffffffffffff0000000000000000000000000, 0xfffffffffffffffffffffffff,
        0xffffffffffffffffffffffffffffffffffffffffffffffffff);
    SquareTimes(t2, t2, 50, v, 0xffffffffffffffffffffffffffffffffffffffffffffffffff,
        0x3fffffffffffffffffffffffffffffffffffffffffffffffffc000000000000);
    MulPowers(t1, t2, t1, v, 0x3fffffffffffffffffffffffffffffffffffffffffffffffffc000000000000, 0x3ffffffffffff,
        0x3ffffffffffffffffffffffffffffffffffffffffffffffffffffffffffffff);
    SquareTimes(t1, t1, 5, v, 0x3ffffffffffffffffffffffffffffffffffffffffffffffffffffffffffffff, P - 13);
  }

  lemma FirstPower(v: int)
    ensures Congruent(P, v, Pow(v, 1))
  {
    assert Pow(v, 1) == v * Pow(v, 0);
    CongruentBy(P, v, Pow(v, 1), 0);
  }

  /** feInvert computes z^(2^255-21), that is z^(p-2); out may be the same array as z. */
  method FeInvert(out: array<int32>, z: array<int32>)
    requires out.Length == 10 && z.Length == 10 && Loose(z[..])
    modifies out
    ensures IsPower(out[..], Value(old(z[..])), P - 2) && Tight(out[..])
  {
    ghost var v := Value(z[..]);
    FirstPower(v);
    var t0, t1, t2, t3 := new int32[10], new int32[10], new int32[10], new int32[10];
    Start(t0, t1, t2, z, v);
    Climb(t1, t2, t3, v);
    MulPowers(out, t1, t0, v, P - 13, 11, P - 2);
  }
}
