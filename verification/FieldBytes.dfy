/**
 * Field elements modulo 2^255-19 as 32 bytes: reading them into limbs, and writing the one
 * representative between 0 and 2^255-20, as feFromBytes and feToBytes of curve25519.go do.
 */
module FieldBytes {
  import opened Words
  import opened Bytes
  import opened Congruence
  import opened Field25519
  import opened Division

  // ---------------------------------------------------------------- division

  /** A floor inside a floor. */
  lemma NestedFloor(h: int, x: int, w: int, r: int)
    requires w > 0 && r > 0
    ensures w * r > 0 && (h + x / w) / r == (w * h + x) / (w * r)
  {
    var a, b := x / w, x % w;
    var c, d := (h + a) / r, (h + a) % r;
    Expand(h, x, w, r, a, b, c, d);
    UniqueRemainder(w * h + x, w * r, c, w * d + b);
  }

  lemma Expand(h: int, x: int, w: int, r: int, a: int, b: int, c: int, d: int)
    requires w > 0 && r > 0 && x == w * a + b && h + a == r * c + d && 0 <= b < w && 0 <= d < r
    ensures w * r > 0 && w * h + x == c * (w * r) + (w * d + b) && 0 <= w * d + b < w * r
  {
    assert w * (h + a) == w * h + w * a;
    Spread(w, r, c, d);
    Room(w, r, d, b);
  }

  lemma Spread(w: int, r: int, c: int, d: int)
    ensures w * (r * c + d) == c * (w * r) + w * d
  {
  }

  lemma Room(w: int, r: int, d: int, b: int)
    requires 0 <= b < w && 0 <= d < r
    ensures 0 <= w * d + b < w * r
  {
    Nonnegative(w, r - 1 - d);
    Nonnegative(w, d);
  }

  lemma Nonnegative(a: int, b: int)
    requires a >= 0 && b >= 0
    ensures a * b >= 0
  {
  }

  // ---------------------------------------------------------------- the quotient by p

  function Radix(i: nat): int {
    if i % 2 == 0 then 0x4000000 else 0x2000000
  }

  lemma {:induction false} WeightNext(i: nat)
    ensures Weight(i) > 0 && Weight(i + 1) == Weight(i) * Radix(i)
  {
    if i >= 2 {
      WeightNext(i - 2);
    } else {
      assert Weight(2) == 0x8000000000000 * Weight(0);
    }
  }

  /** The estimate that feToBytes starts from. */
  function Estimate(h: Limbs): int {
    (19 * h[9] + 0x1000000) / 0x2000000
  }

  /** The estimate carried through the first n limbs. */
  function Folded(h: Limbs, n: nat): int
    requires n <= 10
    decreases n, h
  {
    if n == 0 then Estimate(h) else (h[n - 1] + Folded(h, n - 1)) / Radix(n - 1)
  }

  /** Ten nested shifts are one division. */
  lemma {:induction false} FoldedIs(h: Limbs, n: nat)
    requires n <= 10
    ensures Weight(n) > 0 && Folded(h, n) == (Partial(h, n) + Estimate(h)) / Weight(n)
  {
    if n > 0 {
      FoldedIs(h, n - 1);
      WeightNext(n - 1);
      NestedFloor(h[n - 1], Partial(h, n - 1) + Estimate(h), Weight(n - 1), Radix(n - 1));
    }
  }

  lemma WeightTop()
    ensures Weight(10) == 0x8000000000000000000000000000000000000000000000000000000000000000
  {
    assert Weight(2) == 0x8000000000000 && Weight(4) == 0x40000000000000000000000000;
    assert Weight(6) == 0x200000000000000000000000000000000000000;
    assert Weight(8) == 0x1000000000000000000000000000000000000000000000000000;
  }

  /** All but the last limb weigh less than one unit of it. */
  lemma LowPart(h: Limbs)
    requires Tight(h)
    ensures Between(Value(h) - 0x4000000000000000000000000000000000000000000000000000000000 * h[9],
            0x4000000000000000000000000000000000000000000000000000000000)
  {
    assert Between(h[0], 36909875) && Between(h[1], 18454937) && Between(h[2], 36909875) && Between(h[3], 18454937);
    assert Between(h[4], 36909875) && Between(h[5], 18454937) && Between(h[6], 36909875) && Between(h[7], 18454937);
    assert Between(h[8], 36909875);
  }

  /** The quotient: what is left of the value is between 0 and p - 1. */
  lemma FoldedIsQuotient(h: Limbs)
    requires Tight(h)
    ensures 0 <= Value(h) - P * Folded(h, 10) < P
  {
    var v, e, q := Value(h), Estimate(h), Folded(h, 10);
    FoldedIs(h, 10);
    PartialIsValue(h);
    WeightTop();
    LowPart(h);
    assert Between(h[9], 18454937);
    BasicClaim(v, h[9], e, q);
  }

  /** The claim in the comment on feToBytes, in whole numbers. */
  lemma BasicClaim(v: int, h9: int, e: int, q: int)
    requires Between(h9, 18454937) && e == (19 * h9 + 0x1000000) / 0x2000000
    requires Between(v - 0x4000000000000000000000000000000000000000000000000000000000 * h9,
             0x4000000000000000000000000000000000000000000000000000000000)
    requires q == (v + e) / 0x8000000000000000000000000000000000000000000000000000000000000000
    ensures 0 <= v - P * q < P
  {
    var t := (v + e) % 0x8000000000000000000000000000000000000000000000000000000000000000;
    assert v + e == 0x8000000000000000000000000000000000000000000000000000000000000000 * q + t;
    Sandwich(v, h9, e, q, t);
  }

  lemma Sandwich(v: int, h9: int, e: int, q: int, t: int)
    requires Between(h9, 18454937) && 0x2000000 * e <= 19 * h9 + 0x1000000 < 0x2000000 * e + 0x2000000
    requires Between(v - 0x4000000000000000000000000000000000000000000000000000000000 * h9,
             0x4000000000000000000000000000000000000000000000000000000000)
    requires v + e == 0x8000000000000000000000000000000000000000000000000000000000000000 * q + t
    requires 0 <= t < 0x8000000000000000000000000000000000000000000000000000000000000000
    ensures 0 <= v - P * q < P
  {
    var d := e - 19 * q;
    assert v - P * q == t - d;
    if t < 0x1000000 {
      assert d == 0;
    } else if t >= 0x7fffffffffffffffffffffffffffffffffffffffffffffffffffffffff000000 {
      assert d == 19;
    } else {
      assert 0 <= d <= 20;
    }
  }

  // ---------------------------------------------------------------- canonical limbs

  /** Limbs that are the digits of a number below 2^255. */
  predicate Canonical(h: Limbs) {
    forall i :: 0 <= i < 10 ==> 0 <= h[i] < Radix(i)
  }

  /** A carry that rounds down, so that limb i becomes a digit. */
  function FloorStep(h: Limbs, i: nat): Limbs
    requires i < 9
  {
    h[i := h[i] % Radix(i)][i + 1 := h[i + 1] + h[i] / Radix(i)]
  }

  lemma FloorStepValue(h: Limbs, i: nat)
    requires i < 9
    ensures Value(FloorStep(h, i)) == Value(h)
  {
    if i < 5 {
      FloorStepLow(h, i);
    } else {
      FloorStepHigh(h, i);
    }
  }

  lemma FloorStepFirst(h: Limbs, i: nat)
    requires i < 3
    ensures Value(FloorStep(h, i)) == Value(h)
  {
    assert h[i] == h[i] / Radix(i) * Radix(i) + h[i] % Radix(i);
    if i == 0 {
    } else if i == 1 {
    } else {
    }
  }

  lemma FloorStepLow(h: Limbs, i: nat)
    requires i < 5
    ensures Value(FloorStep(h, i)) == Value(h)
  {
    if i < 3 {
      FloorStepFirst(h, i);
    } else if i == 3 {
      assert h[i] == h[i] / Radix(i) * Radix(i) + h[i] % Radix(i);
    } else {
      assert h[i] == h[i] / Radix(i) * Radix(i) + h[i] % Radix(i);
    }
  }

  lemma FloorStepHigh(h: Limbs, i: nat)
    requires 5 <= i < 9
    ensures Value(FloorStep(h, i)) == Value(h)
  {
    assert h[i] == h[i] / Radix(i) * Radix(i) + h[i] % Radix(i);
    if i == 5 {
    } else if i == 6 {
    } else if i == 7 {
    } else {
    }
  }

  /** The limbs after the first n of these carries. */
  function Floored(h: Limbs, n: nat): Limbs
    requires n <= 9
    decreases n, h
  {
    if n == 0 then h else FloorStep(Floored(h, n - 1), n - 1)
  }

  /** Digits up to n, and a limb beyond that is at most one carry away from what it was. */
  predicate PartlyCanonical(h: Limbs, g: Limbs, n: nat) {
    && (forall i :: 0 <= i < n && i < 10 ==> 0 <= g[i] < Radix(i))
    && (forall i :: n < i < 10 ==> g[i] == h[i])
    && (n < 10 ==> Between(g[n] - h[n], 8))
  }

  /** Limbs that are not tight by at most 19. */
  predicate NearlyTight(h: Limbs) {
    forall i :: 0 <= i < 10 ==> Between(h[i], 36909900)
  }

  lemma FloorStepKeeps(h: Limbs, g: Limbs, n: nat)
    requires n < 9 && NearlyTight(h) && PartlyCanonical(h, g, n)
    ensures PartlyCanonical(h, FloorStep(g, n), n + 1)
  {
    assert Between(h[n], 36909900);
    assert g[n + 1] == h[n + 1];
    assert Between(g[n], 36909908);
    if n % 2 == 0 {
      assert Between(g[n] / 0x4000000, 2);
    } else {
      assert Between(g[n] / 0x2000000, 2);
    }
  }

  lemma {:induction false} FlooredKeeps(h: Limbs, n: nat)
    requires n <= 9 && NearlyTight(h)
    ensures Value(Floored(h, n)) == Value(h) && PartlyCanonical(h, Floored(h, n), n)
  {
    if n > 0 {
      FlooredKeeps(h, n - 1);
      FloorStepValue(Floored(h, n - 1), n - 1);
      FloorStepKeeps(h, Floored(h, n - 1), n - 1);
    }
  }

  lemma CanonicalValue(h: Limbs)
    requires Canonical(h)
    ensures 0 <= Value(h) < 0x8000000000000000000000000000000000000000000000000000000000000000
  {
    assert 0 <= h[0] < 0x4000000 && 0 <= h[1] < 0x2000000 && 0 <= h[2] < 0x4000000 && 0 <= h[3] < 0x2000000;
    assert 0 <= h[4] < 0x4000000 && 0 <= h[5] < 0x2000000 && 0 <= h[6] < 0x4000000 && 0 <= h[7] < 0x2000000;
    assert 0 <= h[8] < 0x4000000 && 0 <= h[9] < 0x2000000;
  }

  /** The limbs that feToBytes writes out. */
  function Reduced(h: Limbs): Limbs {
    ReducedBy(h, Folded(h, 10))
  }

  function ReducedBy(h: Limbs, q: int): Limbs {
    var g := Floored(h[0 := h[0] + 19 * q], 9);
    g[9 := g[9] % 0x2000000]
  }

  /** They are the digits of the one number below p that is congruent to the value. */
  lemma ReducedIsCanonical(h: Limbs)
    requires Tight(h)
    ensures Canonical(Reduced(h)) && Value(Reduced(h)) == Value(h) - P * Folded(h, 10) && 0 <= Value(Reduced(h)) < P
  {
    FoldedIsQuotient(h);
    SmallQuotient(h);
    WithQuotient(h, Folded(h, 10));
  }

  lemma WithQuotient(h: Limbs, q: int)
    requires Tight(h) && Between(q, 1) && 0 <= Value(h) - P * q < P
    ensures Canonical(ReducedBy(h, q)) && Value(ReducedBy(h, q)) == Value(h) - P * q
  {
    var k := h[0 := h[0] + 19 * q];
    NearTight(h, q);
    FirstLimb(h, 19 * q);
    FromNearlyTight(k);
    TopCarry(Value(h), q, Value(ReducedBy(h, q)), Floored(k, 9)[9] / 0x2000000);
  }

  lemma FromNearlyTight(h: Limbs)
    requires NearlyTight(h)
    ensures var g := Floored(h, 9);
            var r := g[9 := g[9] % 0x2000000];
            && Canonical(r) && 0 <= Value(r) < 0x8000000000000000000000000000000000000000000000000000000000000000
            && Value(r) ==
               Value(h) - 0x8000000000000000000000000000000000000000000000000000000000000000 * (g[9] / 0x2000000)
  {
    var g := Floored(h, 9);
    FlooredKeeps(h, 9);
    LastDigit(h, g);
    CanonicalValue(g[9 := g[9] % 0x2000000]);
    TopLimb(g);
  }

  lemma LastDigit(h: Limbs, g: Limbs)
    requires PartlyCanonical(h, g, 9)
    ensures Canonical(g[9 := g[9] % 0x2000000])
  {
    var r := g[9 := g[9] % 0x2000000];
    forall i | 0 <= i < 10 ensures 0 <= r[i] < Radix(i) {
      assert i < 9 ==> r[i] == g[i];
    }
  }

  lemma FirstLimb(h: Limbs, x: int)
    ensures Value(h[0 := h[0] + x]) == Value(h) + x
  {
  }

  lemma SmallQuotient(h: Limbs)
    requires Tight(h) && 0 <= Value(h) - P * Folded(h, 10) < P
    ensures Between(Folded(h, 10), 1)
  {
    LowPart(h);
    assert Between(h[9], 18454937);
  }

  lemma NearTight(h: Limbs, q: int)
    requires Tight(h) && Between(q, 1)
    ensures NearlyTight(h[0 := h[0] + 19 * q])
  {
    var g := h[0 := h[0] + 19 * q];
    forall i | 0 <= i < 10 ensures Between(g[i], 36909900) {
      assert Between(h[i], if i % 2 == 0 then 36909875 else 18454937);
    }
  }

  lemma TopLimb(g: Limbs)
    ensures Value(g[9 := g[9] % 0x2000000]) == Value(g)
            - 0x8000000000000000000000000000000000000000000000000000000000000000 * (g[9] / 0x2000000)
  {
  }

  /** What is carried out at the top is the quotient, which is why it can be dropped. */
  lemma TopCarry(v: int, q: int, r: int, c: int)
    requires 0 <= v - P * q < P && 0 <= r < 0x8000000000000000000000000000000000000000000000000000000000000000
    requires r == v + 19 * q - 0x8000000000000000000000000000000000000000000000000000000000000000 * c
    ensures c == q && r == v - P * q
  {
  }

  // ---------------------------------------------------------------- bytes

  /** The number in n bytes from position i on, least significant first. */
  function LittleEndian(s: seq<byte>, i: nat, n: nat): nat
    requires i + n <= |s|
    decreases n, s
  {
    if n == 0 then 0 else s[i] + 256 * LittleEndian(s, i + 1, n - 1)
  }

  lemma FourBytes(s: seq<byte>, i: nat, n: nat)
    requires 4 <= n && i + n <= |s|
    ensures LittleEndian(s, i, n) == s[i] + 0x100 * s[i + 1] + 0x10000 * s[i + 2] + 0x1000000 * s[i + 3]
            + 0x100000000 * LittleEndian(s, i + 4, n - 4)
  {
    assert LittleEndian(s, i, n) == s[i] + 256 * LittleEndian(s, i + 1, n - 1);
    assert LittleEndian(s, i + 1, n - 1) == s[i + 1] + 256 * LittleEndian(s, i + 2, n - 2);
    assert LittleEndian(s, i + 2, n - 2) == s[i + 2] + 256 * LittleEndian(s, i + 3, n - 3);
    assert LittleEndian(s, i + 3, n - 3) == s[i + 3] + 256 * LittleEndian(s, i + 4, n - 4);
  }

  // Where two limbs share a byte their bits do not overlap, so that the sum below is their union.

  /** The bytes of the lower five limbs. */
  function PackedLow(h0: int, h1: int, h2: int, h3: int, h4: int): (s: seq<byte>)
    ensures |s| == 16
  {
    [
      h0 % 256, h0 / 0x100 % 256, h0 / 0x10000 % 256, (h0 / 0x1000000 + 4 * h1) % 256,
      h1 / 0x40 % 256, h1 / 0x4000 % 256, (h1 / 0x400000 + 8 * h2) % 256, h2 / 0x20 % 256,
      h2 / 0x2000 % 256, (h2 / 0x200000 + 32 * h3) % 256, h3 / 0x8 % 256, h3 / 0x800 % 256,
      (h3 / 0x80000 + 64 * h4) % 256, h4 / 0x4 % 256, h4 / 0x400 % 256, h4 / 0x40000 % 256
    ]
  }

  /** The bytes of the upper five limbs. */
  function PackedHigh(h0: int, h1: int, h2: int, h3: int, h4: int): (s: seq<byte>)
    ensures |s| == 16
  {
    [
      h0 % 256, h0 / 0x100 % 256, h0 / 0x10000 % 256, (h0 / 0x1000000 + 2 * h1) % 256,
      h1 / 0x80 % 256, h1 / 0x8000 % 256, (h1 / 0x800000 + 8 * h2) % 256, h2 / 0x20 % 256,
      h2 / 0x2000 % 256, (h2 / 0x200000 + 16 * h3) % 256, h3 / 0x10 % 256, h3 / 0x1000 % 256,
      (h3 / 0x100000 + 64 * h4) % 256, h4 / 0x4 % 256, h4 / 0x400 % 256, h4 / 0x40000 % 256
    ]
  }

  /** The bytes of canonical limbs. */
  function Packed(h: Limbs): (s: seq<byte>)
    ensures |s| == 32
  {
    PackedLow(h[0], h[1], h[2], h[3], h[4]) + PackedHigh(h[5], h[6], h[7], h[8], h[9])
  }

  /** A limb h behind d, the top bits of the limb before it: a shared byte, two whole ones, and its own top bits. */
  lemma LimbBytes(d: int, h: int, k: int, a: int)
    requires h >= 0 && a > 0 && k * a == 256 && 0 <= d < k
    ensures (d + k * h) % 256 + 256 * (h / a % 256) + 65536 * (h / (a * 256) % 256)
            + 0x1000000 * (h / (a * 65536)) == d + k * h
  {
    var low, x := h % a, h / a;
    var b, c, e := x % 256, x / 256 % 256, x / 256 / 256;
    NestedFloor(0, h, a, 256);
    NestedFloor(0, h, a, 65536);
    assert x / 65536 == e;
    assert x == b + 256 * c + 65536 * e;
    Joint(d, h, k, low, a, x);
  }

  lemma LastLimbBytes(d: int, h: int)
    requires 0 <= h < 0x4000000 && 0 <= d < 64
    ensures (d + 64 * h) % 256 + 256 * (h / 0x4 % 256) + 65536 * (h / 0x400 % 256)
            + 0x1000000 * (h / 0x40000 % 256) == d + 64 * h
  {
    LimbBytes(d, h, 64, 4);
    assert h / 0x40000 % 256 == h / 0x40000;
  }

  lemma Joint(d: int, h: int, k: int, low: int, a: int, x: int)
    requires h == low + a * x && k * a == 256 && 0 <= d < k && 0 <= low < a
    ensures (d + k * h) % 256 == d + k * low && k * h == k * low + 256 * x
  {
    assert k * (a * x) == 256 * x;
    assert k * (a - 1 - low) >= 0;
    UniqueRemainder(d + k * h, 256, x, d + k * low);
  }

  lemma FirstLimbBytes(h: int)
    ensures h % 256 + 256 * (h / 0x100 % 256) + 65536 * (h / 0x10000 % 256) + 0x1000000 * (h / 0x1000000) == h
  {
    assert h / 0x10000 == h / 0x100 / 256 && h / 0x1000000 == h / 0x10000 / 256;
  }

  /** Five limbs in sixteen bytes, region by region. */
  lemma Regions(s: seq<byte>, d0: int, d1: int, d2: int, d3: int, x0: int, x1: int, x2: int, x3: int, x4: int)
    requires |s| == 16
    requires s[0] + 256 * s[1] + 65536 * s[2] + 0x1000000 * d0 == x0
    requires s[3] + 256 * s[4] + 65536 * s[5] + 0x1000000 * d1 == d0 + x1
    requires s[6] + 256 * s[7] + 65536 * s[8] + 0x1000000 * d2 == d1 + x2
    requires s[9] + 256 * s[10] + 65536 * s[11] + 0x1000000 * d3 == d2 + x3
    requires s[12] as int + 256 * s[13] as int + 65536 * s[14] as int + 0x1000000 * s[15] as int == d3 + x4
    ensures LittleEndian(s, 0, 16) ==
            x0 + 0x1000000 * x1 + 0x1000000000000 * x2 + 0x1000000000000000000 * x3 + 0x1000000000000000000000000 * x4
  {
    Sixteen(s);
    Gather(s[0], s[1], s[2], s[3], s[4], s[5], s[6], s[7], s[8], s[9], s[10], s[11], s[12], s[13], s[14], s[15],
           d0, d1, d2, d3, x0, x1, x2, x3, x4);
  }

  /** Four bytes as a number, the first one least. */
  function Quad(s: seq<byte>, i: nat): int
    requires i + 4 <= |s|
  {
    s[i] as int + 0x100 * s[i + 1] as int + 0x10000 * s[i + 2] as int + 0x1000000 * s[i + 3] as int
  }

  lemma QuadFirst(s: seq<byte>, i: nat, n: nat, q: int, rest: int)
    requires 4 <= n && i + n <= |s| && q == Quad(s, i) && rest == LittleEndian(s, i + 4, n - 4)
    ensures LittleEndian(s, i, n) == q + 0x100000000 * rest
  {
    FourBytes(s, i, n);
  }

  lemma Sixteen(s: seq<byte>)
    requires |s| == 16
    ensures LittleEndian(s, 0, 16) ==
            Quad(s, 0) + 0x100000000 * (Quad(s, 4) + 0x100000000 * (Quad(s, 8) + 0x100000000 * Quad(s, 12)))
  {
    var q0, q1, q2, q3 := Quad(s, 0), Quad(s, 4), Quad(s, 8), Quad(s, 12);
    QuadFirst(s, 12, 4, q3, 0);
    QuadFirst(s, 8, 8, q2, q3);
    QuadFirst(s, 4, 12, q1, q2 + 0x100000000 * q3);
    QuadFirst(s, 0, 16, q0, q1 + 0x100000000 * (q2 + 0x100000000 * q3));
  }

  lemma Gather(s0: int, s1: int, s2: int, s3: int, s4: int, s5: int, s6: int, s7: int, s8: int, s9: int, s10: int,
      s11: int, s12: int, s13: int, s14: int, s15: int,
               d0: int, d1: int, d2: int, d3: int, x0: int, x1: int, x2: int, x3: int, x4: int)
    requires s0 + 256 * s1 + 65536 * s2 + 0x1000000 * d0 == x0
    requires s3 + 256 * s4 + 65536 * s5 + 0x1000000 * d1 == d0 + x1
    requires s6 + 256 * s7 + 65536 * s8 + 0x1000000 * d2 == d1 + x2
    requires s9 + 256 * s10 + 65536 * s11 + 0x1000000 * d3 == d2 + x3
    requires s12 + 256 * s13 + 65536 * s14 + 0x1000000 * s15 == d3 + x4
    ensures s0 + 0x100 * s1 + 0x10000 * s2 + 0x1000000 * s3 + 0x100000000 * (
            s4 + 0x100 * s5 + 0x10000 * s6 + 0x1000000 * s7 + 0x100000000 * (
            s8 + 0x100 * s9 + 0x10000 * s10 + 0x1000000 * s11 + 0x100000000 * (
            s12 + 0x100 * s13 + 0x10000 * s14 + 0x1000000 * s15))) ==
            x0 + 0x1000000 * x1 + 0x1000000000000 * x2 + 0x1000000000000000000 * x3 + 0x1000000000000000000000000 * x4
  {
  }

  lemma LowRegions1(h0: int, h1: int, h2: int, h3: int, h4: int)
    requires 0 <= h0 < 0x4000000 && 0 <= h1 < 0x2000000 && 0 <= h2 < 0x4000000 && 0 <= h3 < 0x2000000
             && 0 <= h4 < 0x4000000
    ensures var s := PackedLow(h0, h1, h2, h3, h4);
            && s[0] + 256 * s[1] + 65536 * s[2] + 0x1000000 * (h0 / 0x1000000) == h0
            && s[3] + 256 * s[4] + 65536 * s[5] + 0x1000000 * (h1 / 0x400000) == h0 / 0x1000000 + 4 * h1
  {
    FirstLimbBytes(h0);
    LimbBytes(h0 / 0x1000000, h1, 4, 64);
  }

  lemma LowRegions2(h0: int, h1: int, h2: int, h3: int, h4: int)
    requires 0 <= h0 < 0x4000000 && 0 <= h1 < 0x2000000 && 0 <= h2 < 0x4000000 && 0 <= h3 < 0x2000000
             && 0 <= h4 < 0x4000000
    ensures var s := PackedLow(h0, h1, h2, h3, h4);
            && s[6] + 256 * s[7] + 65536 * s[8] + 0x1000000 * (h2 / 0x200000) == h1 / 0x400000 + 8 * h2
  {
    LimbBytes(h1 / 0x400000, h2, 8, 32);
  }

  lemma LowRegions3(h0: int, h1: int, h2: int, h3: int, h4: int)
    requires 0 <= h0 < 0x4000000 && 0 <= h1 < 0x2000000 && 0 <= h2 < 0x4000000 && 0 <= h3 < 0x2000000
             && 0 <= h4 < 0x4000000
    ensures var s := PackedLow(h0, h1, h2, h3, h4);
            && s[9] + 256 * s[10] + 65536 * s[11] + 0x1000000 * (h3 / 0x80000) == h2 / 0x200000 + 32 * h3
  {
    LimbBytes(h2 / 0x200000, h3, 32, 8);
  }

  lemma LowRegions4(h0: int, h1: int, h2: int, h3: int, h4: int)
    requires 0 <= h0 < 0x4000000 && 0 <= h1 < 0x2000000 && 0 <= h2 < 0x4000000 && 0 <= h3 < 0x2000000
             && 0 <= h4 < 0x4000000
    ensures var s := PackedLow(h0, h1, h2, h3, h4);
            && s[12] as int + 256 * s[13] as int + 65536 * s[14] as int + 0x1000000 * s[15] as int ==
                h3 / 0x80000 + 64 * h4
  {
    LastLimbBytes(h3 / 0x80000, h4);
  }

  lemma LowRegions(h0: int, h1: int, h2: int, h3: int, h4: int)
    requires 0 <= h0 < 0x4000000 && 0 <= h1 < 0x2000000 && 0 <= h2 < 0x4000000 && 0 <= h3 < 0x2000000
             && 0 <= h4 < 0x4000000
    ensures var s := PackedLow(h0, h1, h2, h3, h4);
            && s[0] + 256 * s[1] + 65536 * s[2] + 0x1000000 * (h0 / 0x1000000) == h0
            && s[3] + 256 * s[4] + 65536 * s[5] + 0x1000000 * (h1 / 0x400000) == h0 / 0x1000000 + 4 * h1
            && s[6] + 256 * s[7] + 65536 * s[8] + 0x1000000 * (h2 / 0x200000) == h1 / 0x400000 + 8 * h2
            && s[9] + 256 * s[10] + 65536 * s[11] + 0x1000000 * (h3 / 0x80000) == h2 / 0x200000 + 32 * h3
            && s[12] as int + 256 * s[13] as int + 65536 * s[14] as int + 0x1000000 * s[15] as int ==
                h3 / 0x80000 + 64 * h4
  {
    LowRegions1(h0, h1, h2, h3, h4);
    LowRegions2(h0, h1, h2, h3, h4);
    LowRegions3(h0, h1, h2, h3, h4);
    LowRegions4(h0, h1, h2, h3, h4);
  }

  lemma LowValue(h0: int, h1: int, h2: int, h3: int, h4: int)
    requires 0 <= h0 < 0x4000000 && 0 <= h1 < 0x2000000 && 0 <= h2 < 0x4000000 && 0 <= h3 < 0x2000000
             && 0 <= h4 < 0x4000000
    ensures LittleEndian(PackedLow(h0, h1, h2, h3, h4), 0, 16) ==
            h0 + 0x4000000 * h1 + 0x8000000000000 * h2 + 0x20000000000000000000 * h3
            + 0x40000000000000000000000000 * h4
  {
    LowRegions(h0, h1, h2, h3, h4);
    Regions(PackedLow(h0, h1, h2, h3, h4), h0 / 0x1000000, h1 / 0x400000, h2 / 0x200000, h3 / 0x80000, h0, 4 * h1,
        8 * h2, 32 * h3, 64 * h4);
  }

  lemma HighRegions1(h0: int, h1: int, h2: int, h3: int, h4: int)
    requires 0 <= h0 < 0x2000000 && 0 <= h1 < 0x4000000 && 0 <= h2 < 0x2000000 && 0 <= h3 < 0x4000000
             && 0 <= h4 < 0x2000000
    ensures var s := PackedHigh(h0, h1, h2, h3, h4);
            && s[0] + 256 * s[1] + 65536 * s[2] + 0x1000000 * (h0 / 0x1000000) == h0
            && s[3] + 256 * s[4] + 65536 * s[5] + 0x1000000 * (h1 / 0x800000) == h0 / 0x1000000 + 2 * h1
  {
    FirstLimbBytes(h0);
    LimbBytes(h0 / 0x1000000, h1, 2, 128);
  }

  lemma HighRegions2(h0: int, h1: int, h2: int, h3: int, h4: int)
    requires 0 <= h0 < 0x2000000 && 0 <= h1 < 0x4000000 && 0 <= h2 < 0x2000000 && 0 <= h3 < 0x4000000
             && 0 <= h4 < 0x2000000
    ensures var s := PackedHigh(h0, h1, h2, h3, h4);
            && s[6] + 256 * s[7] + 65536 * s[8] + 0x1000000 * (h2 / 0x200000) == h1 / 0x800000 + 8 * h2
  {
    LimbBytes(h1 / 0x800000, h2, 8, 32);
  }

  lemma HighRegions3(h0: int, h1: int, h2: int, h3: int, h4: int)
    requires 0 <= h0 < 0x2000000 && 0 <= h1 < 0x4000000 && 0 <= h2 < 0x2000000 && 0 <= h3 < 0x4000000
             && 0 <= h4 < 0x2000000
    ensures var s := PackedHigh(h0, h1, h2, h3, h4);
            && s[9] + 256 * s[10] + 65536 * s[11] + 0x1000000 * (h3 / 0x100000) == h2 / 0x200000 + 16 * h3
  {
    LimbBytes(h2 / 0x200000, h3, 16, 16);
  }

  lemma HighRegions4(h0: int, h1: int, h2: int, h3: int, h4: int)
    requires 0 <= h0 < 0x2000000 && 0 <= h1 < 0x4000000 && 0 <= h2 < 0x2000000 && 0 <= h3 < 0x4000000
             && 0 <= h4 < 0x2000000
    ensures var s := PackedHigh(h0, h1, h2, h3, h4);
            && s[12] as int + 256 * s[13] as int + 65536 * s[14] as int + 0x1000000 * s[15] as int ==
                h3 / 0x100000 + 64 * h4
  {
    LastLimbBytes(h3 / 0x100000, h4);
  }

  lemma HighRegions(h0: int, h1: int, h2: int, h3: int, h4: int)
    requires 0 <= h0 < 0x2000000 && 0 <= h1 < 0x4000000 && 0 <= h2 < 0x2000000 && 0 <= h3 < 0x4000000
             && 0 <= h4 < 0x2000000
    ensures var s := PackedHigh(h0, h1, h2, h3, h4);
            && s[0] + 256 * s[1] + 65536 * s[2] + 0x1000000 * (h0 / 0x1000000) == h0
            && s[3] + 256 * s[4] + 65536 * s[5] + 0x1000000 * (h1 / 0x800000) == h0 / 0x1000000 + 2 * h1
            && s[6] + 256 * s[7] + 65536 * s[8] + 0x1000000 * (h2 / 0x200000) == h1 / 0x800000 + 8 * h2
            && s[9] + 256 * s[10] + 65536 * s[11] + 0x1000000 * (h3 / 0x100000) == h2 / 0x200000 + 16 * h3
            && s[12] as int + 256 * s[13] as int + 65536 * s[14] as int + 0x1000000 * s[15] as int ==
                h3 / 0x100000 + 64 * h4
  {
    HighRegions1(h0, h1, h2, h3, h4);
    HighRegions2(h0, h1, h2, h3, h4);
    HighRegions3(h0, h1, h2, h3, h4);
    HighRegions4(h0, h1, h2, h3, h4);
  }

  lemma HighValue(h0: int, h1: int, h2: int, h3: int, h4: int)
    requires 0 <= h0 < 0x2000000 && 0 <= h1 < 0x4000000 && 0 <= h2 < 0x2000000 && 0 <= h3 < 0x4000000
             && 0 <= h4 < 0x2000000
    ensures LittleEndian(PackedHigh(h0, h1, h2, h3, h4), 0, 16) ==
            h0 + 0x2000000 * h1 + 0x8000000000000 * h2 + 0x10000000000000000000 * h3
            + 0x40000000000000000000000000 * h4
  {
    HighRegions(h0, h1, h2, h3, h4);
    Regions(PackedHigh(h0, h1, h2, h3, h4), h0 / 0x1000000, h1 / 0x800000, h2 / 0x200000, h3 / 0x100000, h0, 2 * h1,
        8 * h2, 16 * h3, 64 * h4);
  }

  lemma {:induction false} SplitBytes(s: seq<byte>, i: nat, m: nat, n: nat)
    requires i + m + n <= |s|
    ensures LittleEndian(s, i, m + n) == LittleEndian(s, i, m) + Pow256(m) * LittleEndian(s, i + m, n)
    decreases m
  {
    if m > 0 {
      SplitBytes(s, i + 1, m - 1, n);
      Grow(s[i], LittleEndian(s, i + 1, m - 1), Pow256(m - 1), LittleEndian(s, i + m, n));
    }
  }

  lemma Grow(b: int, x: int, p: int, y: int)
    ensures b + 256 * (x + p * y) == (b + 256 * x) + 256 * p * y
  {
  }

  lemma {:induction false} SameBytes(s: seq<byte>, t: seq<byte>, i: nat, j: nat, n: nat)
    requires i + n <= |s| && j + n <= |t| && s[i..i + n] == t[j..j + n]
    ensures LittleEndian(s, i, n) == LittleEndian(t, j, n)
    decreases n
  {
    if n > 0 {
      assert s[i] == s[i..i + n][0] && t[j] == t[j..j + n][0];
      assert s[i + 1..i + n] == s[i..i + n][1..] && t[j + 1..j + n] == t[j..j + n][1..];
      SameBytes(s, t, i + 1, j + 1, n - 1);
    }
  }

  /** The bytes are the value, least significant first. */
  lemma PackedValue(h: Limbs)
    requires Canonical(h)
    ensures LittleEndian(Packed(h), 0, 32) == Value(h)
  {
    var low, high := PackedLow(h[0], h[1], h[2], h[3], h[4]), PackedHigh(h[5], h[6], h[7], h[8], h[9]);
    assert 0 <= h[0] < 0x4000000 && 0 <= h[1] < 0x2000000 && 0 <= h[2] < 0x4000000 && 0 <= h[3] < 0x2000000
           && 0 <= h[4] < 0x4000000;
    assert 0 <= h[5] < 0x2000000 && 0 <= h[6] < 0x4000000 && 0 <= h[7] < 0x2000000 && 0 <= h[8] < 0x4000000
           && 0 <= h[9] < 0x2000000;
    LowValue(h[0], h[1], h[2], h[3], h[4]);
    HighValue(h[5], h[6], h[7], h[8], h[9]);
    WholeNumber(low, high);
  }

  lemma Halves(low: seq<byte>, high: seq<byte>)
    ensures LittleEndian(low + high, 0, |low| + |high|) ==
            LittleEndian(low, 0, |low|) + Pow256(|low|) * LittleEndian(high, 0, |high|)
  {
    var s, m, n := low + high, |low|, |high|;
    FrontBytes(low, high);
    BackBytes(low, high);
    SplitBytes(s, 0, m, n);
  }

  lemma FrontBytes(low: seq<byte>, high: seq<byte>)
    ensures LittleEndian(low + high, 0, |low|) == LittleEndian(low, 0, |low|)
  {
    assert (low + high)[0..|low|] == low[0..|low|];
    SameBytes(low + high, low, 0, 0, |low|);
  }

  lemma BackBytes(low: seq<byte>, high: seq<byte>)
    ensures LittleEndian(low + high, |low|, |high|) == LittleEndian(high, 0, |high|)
  {
    assert (low + high)[|low|..|low| + |high|] == high[0..|high|];
    SameBytes(low + high, high, |low|, 0, |high|);
  }

  lemma Replace(p: int, r: int, x: int)
    requires p == r
    ensures p * x == r * x
  {
  }

  lemma Pow16()
    ensures Pow256(16) == 0x100000000000000000000000000000000
  {
    Powers();
    FourMore(8);
    FourMore(12);
  }

  lemma FourMore(k: nat)
    ensures Pow256(k + 4) == 0x100000000 * Pow256(k)
  {
    assert Pow256(k + 2) == 0x10000 * Pow256(k);
  }

  // ---------------------------------------------------------------- feToBytes

  lemma {:induction false} FoldedSmall(h: Limbs, n: nat)
    requires Tight(h) && n <= 10
    ensures Between(Folded(h, n), 12)
  {
    if n == 0 {
      assert Between(h[9], 18454937);
    } else {
      FoldedSmall(h, n - 1);
      assert Between(h[n - 1], 36909875);
    }
  }

  /** One of the shifts that carry the estimate through the limbs. */
  method FoldOne(h: array<int32>, q: int32, n: nat) returns (r: int32)
    requires h.Length == 10 && n < 10 && Tight(h[..]) && q == Folded(h[..], n)
    ensures r == Folded(h[..], n + 1)
  {
    FoldedSmall(h[..], n);
    assert Between(h[..][n], 36909875);
    r := (h[n] + q) / (if n % 2 == 0 then 0x4000000 else 0x2000000);
  }

  /** The quotient, in eleven shifts. */
  method FoldQuotient(h: array<int32>) returns (q: int32)
    requires h.Length == 10 && Tight(h[..])
    ensures q == Folded(h[..], 10)
  {
    assert Between(h[..][9], 18454937);
    q := (19 * h[9] + 0x1000000) / 0x2000000;
    q := FoldOne(h, q, 0);
    q := FoldOne(h, q, 1);
    q := FoldOne(h, q, 2);
    q := FoldOne(h, q, 3);
    q := FoldOne(h, q, 4);
    q := FoldOne(h, q, 5);
    q := FoldOne(h, q, 6);
    q := FoldOne(h, q, 7);
    q := FoldOne(h, q, 8);
    q := FoldOne(h, q, 9);
  }

  /** The nine carries that round down, and what is carried out at the top dropped. */
  method FloorChain(h: array<int32>)
    requires h.Length == 10 && NearlyTight(h[..])
    modifies h
    ensures var g := Floored(old(h[..]), 9); h[..] == g[9 := g[9] % 0x2000000]
  {
    ghost var h0: Limbs := h[..];
    FloorLow(h, h0);
    FloorHigh(h, h0);
    TopBound(h0);
    var c: int32 := h[9] / 0x2000000;
    h[9] := h[9] - c * 0x2000000;
  }

  lemma TopBound(h0: Limbs)
    requires NearlyTight(h0)
    ensures Between(Floored(h0, 9)[9], 36909908)
  {
    FlooredKeeps(h0, 9);
    assert Between(h0[9], 36909900);
  }

  method FloorLow(h: array<int32>, ghost h0: Limbs)
    requires h.Length == 10 && NearlyTight(h0) && h[..] == h0
    modifies h
    ensures h[..] == Floored(h0, 5)
  {
    FloorNext(h, 0, h0);
    FloorNext(h, 1, h0);
    FloorNext(h, 2, h0);
    FloorNext(h, 3, h0);
    FloorNext(h, 4, h0);
  }

  method FloorHigh(h: array<int32>, ghost h0: Limbs)
    requires h.Length == 10 && NearlyTight(h0) && h[..] == Floored(h0, 5)
    modifies h
    ensures h[..] == Floored(h0, 9)
  {
    FloorNext(h, 5, h0);
    FloorNext(h, 6, h0);
    FloorNext(h, 7, h0);
    FloorNext(h, 8, h0);
  }

  method FloorNext(h: array<int32>, i: nat, ghost h0: Limbs)
    requires h.Length == 10 && i < 9 && NearlyTight(h0) && h[..] == Floored(h0, i)
    modifies h
    ensures h[..] == Floored(h0, i + 1)
  {
    FlooredKeeps(h0, i);
    assert Between(h0[i], 36909900) && Between(h0[i + 1], 36909900);
    assert h[..][i + 1] == h0[i + 1] && Between(h[..][i], 36909908);
    FloorOne(h, i);
  }

  method FloorOne(h: array<int32>, i: nat)
    requires h.Length == 10 && i < 9 && Between(h[i], 36909908) && Between(h[i + 1], 36909908)
    modifies h
    ensures h[..] == FloorStep(old(h[..]), i)
  {
    var c: int32;
    if i % 2 == 0 {
      c := h[i] / 0x4000000;
      h[i + 1] := h[i + 1] + c;
      h[i] := h[i] - c * 0x4000000;
    } else {
      c := h[i] / 0x2000000;
      h[i + 1] := h[i + 1] + c;
      h[i] := h[i] - c * 0x2000000;
    }
  }

  /** feToBytes writes the one number below p that is congruent to the value; the limbs are used up on the way. */
  method FeToBytes(s: array<byte>, h: array<int32>)
    requires s.Length == 32 && h.Length == 10 && Tight(h[..])
    modifies s, h
    ensures var r := LittleEndian(s[..], 0, 32); 0 <= r < P && Congruent(P, r, Value(old(h[..])))
  {
    ghost var h0: Limbs := h[..];
    var q := FoldQuotient(h);
    FoldedIsQuotient(h0);
    SmallQuotient(h0);
    NearTight(h0, q);
    assert Between(h0[0], 36909875);
    h[0] := h[0] + 19 * q;
    assert h[..] == h0[0 := h0[0] + 19 * q];
    FloorChain(h);
    assert h[..] == Reduced(h0);
    Written(h0);
    var bytes := Packed(h[..]);
    forall i | 0 <= i < 32 {
      s[i] := bytes[i];
    }
    assert s[..] == bytes;
  }

  lemma Written(h: Limbs)
    requires Tight(h)
    ensures var r := LittleEndian(Packed(Reduced(h)), 0, 32); 0 <= r < P && Congruent(P, r, Value(h))
  {
    ReducedIsCanonical(h);
    PackedValue(Reduced(h));
    CongruentBy(P, Value(Reduced(h)), Value(h), -Folded(h, 10));
  }

  // ---------------------------------------------------------------- feFromBytes and feMul121666

  /** The limbs that feFromBytes and feMul121666 carry out of, in their order. */
  function Order2(n: nat): (i: nat)
    ensures i < 10
  {
    if n == 0 then 9 else if n == 1 then 1 else if n == 2 then 3 else if n == 3 then 5 else if n == 4 then 7 else
    if n == 5 then 0 else if n == 6 then 2 else if n == 7 then 4 else if n == 8 then 6 else 8
  }

  function Settled(h: Limbs, n: nat): Limbs
    decreases n, h
  {
    if n == 0 then h else Step(Settled(h, n - 1), Order2(n - 1))
  }

  lemma {:induction false} SettledValue(h: Limbs, n: nat)
    ensures Congruent(P, Value(Settled(h, n)), Value(h))
  {
    if n == 0 {
      CongruentBy(P, Value(h), Value(h), 0);
    } else {
      SettledValue(h, n - 1);
      StepFollows(Settled(h, n - 1), Order2(n - 1), Value(h));
    }
  }

  /** Limits on limb i after the first n of these carries, from 2^44 at first. */
  function LimitOf2(n: nat, i: nat): (m: nat)
    ensures m <= 0x2000_0000_0000
  {
    if i == 0 then (if n < 1 then 0x1000_0000_0000 else if n < 6 then 0x2000_0000_0000 else 0x2000000)
    else if i == 1 then (if n < 2 then 0x1000_0000_0000 else if n < 6 then 0x1000000 else 18454937)
    else if i == 2 then (if n < 2 then 0x1000_0000_0000 else if n < 7 then 0x2000_0000_0000 else 0x2000000)
    else if i == 3 then (if n < 3 then 0x1000_0000_0000 else if n < 7 then 0x1000000 else 18454937)
    else if i == 4 then (if n < 3 then 0x1000_0000_0000 else if n < 8 then 0x2000_0000_0000 else 0x2000000)
    else if i == 5 then (if n < 4 then 0x1000_0000_0000 else if n < 8 then 0x1000000 else 18454937)
    else if i == 6 then (if n < 4 then 0x1000_0000_0000 else if n < 9 then 0x2000_0000_0000 else 0x2000000)
    else if i == 7 then (if n < 5 then 0x1000_0000_0000 else if n < 9 then 0x1000000 else 18454937)
    else if i == 8 then (if n < 5 then 0x1000_0000_0000 else if n < 10 then 0x2000_0000_0000 else 0x2000000)
    else (if n < 1 then 0x1000_0000_0000 else if n < 10 then 0x1000000 else 18454937)
  }

  predicate Limited2(h: Limbs, n: nat) {
    forall i :: 0 <= i < 10 ==> Between(h[i], LimitOf2(n, i))
  }

  lemma StepLimited2(h: Limbs, n: nat)
    requires n < 10 && Limited2(h, n)
    ensures Limited2(Step(h, Order2(n)), n + 1)
  {
    var i := Order2(n);
    assert Between(h[i], LimitOf2(n, i)) && Between(h[Next(i)], LimitOf2(n, Next(i)));
    forall j | 0 <= j < 10 ensures Between(Step(h, i)[j], LimitOf2(n + 1, j)) {
      assert Between(h[j], LimitOf2(n, j));
    }
  }

  lemma Limited2IsTight(h: Limbs)
    requires Limited2(h, 10)
    ensures Tight(h)
  {
    forall i | 0 <= i < 10 ensures Between(h[i], if i % 2 == 0 then 36909875 else 18454937) {
      assert Between(h[i], LimitOf2(10, i));
    }
  }

  method SettleStep(t: array<int64>, i: nat, ghost n: nat, ghost h: Limbs)
    requires t.Length == 10 && n < 10 && i == Order2(n) && Limited2(t[..], n) && t[..] == Settled(h, n)
    modifies t
    ensures Limited2(t[..], n + 1) && t[..] == Settled(h, n + 1)
  {
    StepLimited2(t[..], n);
    assert Between(t[..][i], LimitOf2(n, i)) && Between(t[..][Next(i)], LimitOf2(n, Next(i)));
    var c: int64, kept: int64;
    if i % 2 == 0 {
      c := (t[i] + 0x2000000) / 0x4000000;
      kept := t[i] - c * 0x4000000;
    } else {
      c := (t[i] + 0x1000000) / 0x2000000;
      kept := t[i] - c * 0x2000000;
    }
    var j := if i == 9 then 0 else i + 1;
    t[j] := t[j] + (if i == 9 then 19 * c else c);
    t[i] := kept;
    assert t[..] == Step(old(t[..]), i);
  }

  /** The ten carries that end feFromBytes and feMul121666. */
  method SettleChain(t: array<int64>)
    requires t.Length == 10 && Limited2(t[..], 0)
    modifies t
    ensures Tight(t[..]) && Congruent(P, Value(t[..]), Value(old(t[..])))
  {
    ghost var h := t[..];
    SettleOdd(t, 0, h);
    SettleEven(t, 5, h);
    Limited2IsTight(t[..]);
    SettledValue(h, 10);
  }

  method SettleOdd(t: array<int64>, ghost n: nat, ghost h: Limbs)
    requires t.Length == 10 && n == 0 && Limited2(t[..], n) && t[..] == Settled(h, n)
    modifies t
    ensures Limited2(t[..], n + 5) && t[..] == Settled(h, n + 5)
  {
    SettleStep(t, 9, n, h);
    SettleStep(t, 1, n + 1, h);
    SettleStep(t, 3, n + 2, h);
    SettleStep(t, 5, n + 3, h);
    SettleStep(t, 7, n + 4, h);
  }

  method SettleEven(t: array<int64>, ghost n: nat, ghost h: Limbs)
    requires t.Length == 10 && n == 5 && Limited2(t[..], n) && t[..] == Settled(h, n)
    modifies t
    ensures Limited2(t[..], n + 5) && t[..] == Settled(h, n + 5)
  {
    SettleStep(t, 0, n, h);
    SettleStep(t, 2, n + 1, h);
    SettleStep(t, 4, n + 2, h);
    SettleStep(t, 6, n + 3, h);
    SettleStep(t, 8, n + 4, h);
  }

  /** The ten products of feMul121666 in 64-bit words. */
  method Scaled121666(f: array<int32>) returns (t: array<int64>)
    requires f.Length == 10 && Loose(f[..])
    ensures fresh(t) && t.Length == 10 && t[..] == Scale(121666, f[..])
  {
    assert forall i :: 0 <= i < 10 ==> Between(f[..][i], 73819750);
    t := new int64[10] [f[0] as int * 121666, f[1] as int * 121666, f[2] as int * 121666, f[3] as int * 121666,
        f[4] as int * 121666,
                        f[5] as int * 121666, f[6] as int * 121666, f[7] as int * 121666, f[8] as int * 121666,
                            f[9] as int * 121666];
  }

  lemma ScaledLimited(f: Limbs)
    requires Loose(f)
    ensures Limited2(Scale(121666, f), 0)
  {
    forall i | 0 <= i < 10 ensures Between(Scale(121666, f)[i], LimitOf2(0, i)) {
      assert Between(f[i], 73819750);
    }
  }

  /** feMul121666. */
  method FeMul121666(h: array<int32>, f: array<int32>)
    requires h.Length == 10 && f.Length == 10 && Loose(f[..])
    modifies h
    ensures Tight(h[..]) && Congruent(P, Value(h[..]), 121666 * Value(old(f[..])))
  {
    ScaledLimited(f[..]);
    ScaleValue(121666, f[..]);
    var t := Scaled121666(f);
    SettleChain(t);
    Store(h, t);
  }

  function Load3(s: seq<byte>, i: nat): int
    requires i + 3 <= |s|
  {
    s[i] as int + 0x100 * s[i + 1] as int + 0x10000 * s[i + 2] as int
  }

  function Load4(s: seq<byte>, i: nat): int
    requires i + 4 <= |s|
  {
    Load3(s, i) + 0x1000000 * s[i + 3] as int
  }

  /** The limbs that feFromBytes loads. */
  function Loaded(s: seq<byte>): Limbs
    requires |s| == 32
  {
    [Load4(s, 0), 64 * Load3(s, 4), 32 * Load3(s, 7), 8 * Load3(s, 10), 4 * Load3(s, 13),
     Load4(s, 16), 128 * Load3(s, 20), 32 * Load3(s, 23), 16 * Load3(s, 26), 4 * Load3(s, 29)]
  }

  lemma FiveLoads(s: seq<byte>)
    requires |s| == 16
    ensures LittleEndian(s, 0, 16) == Load4(s, 0) + 0x100000000 * Load3(s, 4) + 0x100000000000000 * Load3(s, 7)
                                      + 0x100000000000000000000 * Load3(s, 10)
                                          + 0x100000000000000000000000000 * Load3(s, 13)
  {
    Sixteen(s);
  }

  lemma LoadedValue(s: seq<byte>)
    requires |s| == 32
    ensures Value(Loaded(s)) == LittleEndian(s, 0, 32)
  {
    var low, high := s[..16], s[16..];
    assert s == low + high;
    FiveLoads(low);
    FiveLoads(high);
    WholeNumber(low, high);
    LoadHalves(s);
    TenLoads(Loaded(s), Load4(low, 0), Load3(low, 4), Load3(low, 7), Load3(low, 10), Load3(low, 13),
             Load4(high, 0), Load3(high, 4), Load3(high, 7), Load3(high, 10), Load3(high, 13));
  }

  lemma WholeNumber(low: seq<byte>, high: seq<byte>)
    requires |low| == 16 && |high| == 16
    ensures LittleEndian(low + high, 0, 32) == LittleEndian(low, 0, 16)
            + 0x100000000000000000000000000000000 * LittleEndian(high, 0, 16)
  {
    Halves(low, high);
    Pow16();
    Replace(Pow256(|low|), 0x100000000000000000000000000000000, LittleEndian(high, 0, 16));
  }

  lemma LoadHalves(s: seq<byte>)
    requires |s| == 32
    ensures var low, high := s[..16], s[16..];
            && Loaded(s)[..5] == [Load4(low, 0), 64 * Load3(low, 4), 32 * Load3(low, 7), 8 * Load3(low, 10),
                4 * Load3(low, 13)]
            && Loaded(s)[5..] == [Load4(high, 0), 128 * Load3(high, 4), 32 * Load3(high, 7), 16 * Load3(high, 10),
                4 * Load3(high, 13)]
  {
  }

  lemma TenLoads(l: Limbs, a0: int, a1: int, a2: int, a3: int, a4: int, b0: int, b1: int, b2: int, b3: int, b4: int)
    requires l[..5] == [a0, 64 * a1, 32 * a2, 8 * a3, 4 * a4] && l[5..] == [b0, 128 * b1, 32 * b2, 16 * b3, 4 * b4]
    ensures Value(l) == (a0 + 0x100000000 * a1 + 0x100000000000000 * a2 + 0x100000000000000000000 * a3
            + 0x100000000000000000000000000 * a4)
                        + 0x100000000000000000000000000000000 * (b0 + 0x100000000 * b1 + 0x100000000000000 * b2
                            + 0x100000000000000000000 * b3 + 0x100000000000000000000000000 * b4)
  {
    assert l[0] == l[..5][0] && l[1] == l[..5][1] && l[2] == l[..5][2] && l[3] == l[..5][3] && l[4] == l[..5][4];
    assert l[5] == l[5..][0] && l[6] == l[5..][1] && l[7] == l[5..][2] && l[8] == l[5..][3] && l[9] == l[5..][4];
  }

  /** feFromBytes reads 32 bytes, all 256 bits of them, into tight limbs. */
  method FeFromBytes(dst: array<int32>, src: array<byte>)
    requires dst.Length == 10 && src.Length == 32
    modifies dst
    ensures Tight(dst[..]) && Congruent(P, Value(dst[..]), LittleEndian(src[..], 0, 32))
  {
    var s := src[..];
    var l := Loaded(s);
    LoadedValue(s);
    LoadedLimits(s);
    var t := Widen(l);
    SettleChain(t);
    Store(dst, t);
  }

  method Widen(l: Limbs) returns (t: array<int64>)
    requires forall i :: 0 <= i < 10 ==> 0 <= l[i] <= 0x1000_0000_0000
    ensures fresh(t) && t.Length == 10 && t[..] == l && Limited2(t[..], 0)
  {
    t := new int64[10](i requires 0 <= i < 10 => l[i]);
    assert t[..] == l;
  }

  lemma LoadedLimits(s: seq<byte>)
    requires |s| == 32
    ensures forall i :: 0 <= i < 10 ==> 0 <= Loaded(s)[i] <= 0x1000_0000_0000
  {
  }

  /** Reading what was written gives the same element, and writing what was read the canonical bytes. */
  method BytesRoundTrip(h: array<int32>, s: array<byte>)
    requires s.Length == 32 && h.Length == 10 && Tight(h[..])
    modifies s, h
    ensures Tight(h[..]) && Congruent(P, Value(h[..]), Value(old(h[..])))
  {
    ghost var v := Value(h[..]);
    FeToBytes(s, h);
    FeFromBytes(h, s);
    CongruentChain(P, Value(h[..]), LittleEndian(s[..], 0, 32), v);
  }
}
