/** The scalar of section 5 of RFC 7748: the number that scalarMult makes of a private key, and its bits. */
module Scalar25519 {
  import opened Words
  import opened Bytes
  import opened Division
  import opened Field25519
  import opened FieldBytes

  /** The private key with its three low bits cleared and its top bits set to 01. */
  function Clamped(key: seq<byte>): (e: seq<byte>)
    requires |key| == 32
    ensures |e| == 32 && e[0] % 8 == 0 && 64 <= e[31] < 128
  {
    key[0 := key[0] / 8 * 8][31 := key[31] % 64 + 64]
  }

  /** Bit pos, taken out of its byte. */
  function Bit(e: seq<byte>, pos: nat): nat
    requires |e| == 32 && pos < 256
  {
    e[pos / 8] as int / TwoTo(pos % 8) % 2
  }

  /** Bit pos of a number. */
  function BitOf(k: nat, pos: nat): nat {
    k / TwoTo(pos) % 2
  }

  /** 2^254. */
  const TOP := 0x4000_0000_0000_0000_0000_0000_0000_0000_0000_0000_0000_0000_0000_0000_0000_0000

  lemma TopIsPower()
    ensures TwoTo(254) == TOP && TwoTo(255) == 2 * TOP && 64 * Pow256(31) == TOP
  {
    PowersAgree(31);
    TwoToSum(248, 6);
    assert TwoTo(6) == 64 && TwoTo(255) == 2 * TwoTo(254);
    TwoToTwice(4, 8);
    TwoToTwice(8, 16);
    TwoToTwice(16, 32);
    TwoToTwice(32, 64);
    TwoToTwice(64, 128);
    TwoToSum(128, 64);
    TwoToSum(192, 32);
    TwoToSum(224, 16);
    TwoToSum(240, 8);
  }

  /** The number k is the scalar of the key: bits 3 to 253 are the key's, bit 254 is set and all others are not. */
  ghost predicate IsScalar(k: nat, key: nat) {
    && k % 8 == 0 && TOP <= k < 2 * TOP
    && forall pos :: 3 <= pos < 254 ==> BitOf(k, pos) == BitOf(key, pos)
  }

  // ---------------------------------------------------------------- bits of bytes and of numbers

  lemma HighBit(x: byte, rest: nat, pos: nat)
    requires pos >= 8
    ensures BitOf(x + 256 * rest, pos) == BitOf(rest, pos - 8)
  {
    var p := TwoTo(pos - 8);
    TwoToSum(pos - 8, 8);
    assert TwoTo(8) == 256;
    var q, r := rest / p, rest % p;
    assert x + 256 * rest == q * (p * 256) + (x + 256 * r);
    UniqueRemainder(x + 256 * rest, p * 256, q, x + 256 * r);
  }

  /** An even multiple of p does not change the last bit of the quotient. */
  lemma EvenMultiple(x: nat, p: nat, m: nat, n: nat, rest: nat)
    requires p >= 1 && n == p * (2 * m)
    ensures (x + n * rest) / p % 2 == x / p % 2
  {
    var t, q, r := m * rest, x / p, x % p;
    Folded(p, m, rest, q, r);
    UniqueRemainder(x + n * rest, p, q + 2 * t, r);
  }

  lemma Folded(p: nat, m: nat, rest: nat, q: nat, r: nat)
    ensures q * p + r + p * (2 * m) * rest == (q + 2 * (m * rest)) * p + r
  {
  }

  lemma LowBit(x: byte, rest: nat, pos: nat)
    requires pos < 8
    ensures BitOf(x + 256 * rest, pos) == x / TwoTo(pos) % 2
  {
    SplitPower(pos, 8);
    EvenMultiple(x, TwoTo(pos), TwoTo(8 - pos - 1), 256, rest);
  }

  lemma SplitPower(j: nat, n: nat)
    requires j < n
    ensures TwoTo(n) == TwoTo(j) * (2 * TwoTo(n - j - 1))
    ensures TwoTo(6) == 64 && TwoTo(8) == 256
  {
    TwoToSum(j, n - j);
  }

  /** The bits of a little-endian number are those of its bytes. */
  lemma {:induction false} ByteBit(s: seq<byte>, i: nat, n: nat, pos: nat)
    requires i + n <= |s| && pos < 8 * n
    ensures BitOf(LittleEndian(s, i, n), pos) == s[i + pos / 8] as int / TwoTo(pos % 8) % 2
    decreases n
  {
    if pos < 8 {
      LowBit(s[i], LittleEndian(s, i + 1, n - 1), pos);
    } else {
      HighBit(s[i], LittleEndian(s, i + 1, n - 1), pos);
      ByteBit(s, i + 1, n - 1, pos - 8);
      assert (pos - 8) / 8 == pos / 8 - 1 && (pos - 8) % 8 == pos % 8;
    }
  }

  // ---------------------------------------------------------------- clamping

  /** The loop of scalarMult takes the bits of the number that the bytes stand for. */
  lemma BitIsOfNumber(e: seq<byte>, pos: nat)
    requires |e| == 32 && pos < 256
    ensures Bit(e, pos) == BitOf(LittleEndian(e, 0, 32), pos)
  {
    ByteBit(e, 0, 32, pos);
  }

  lemma KeptLow(x: byte, j: nat)
    requires 3 <= j
    ensures (x / 8 * 8) / TwoTo(j) % 2 == x / TwoTo(j) % 2
  {
    TwoToSum(j - 3, 3);
    assert TwoTo(3) == 8;
    LowBitsDropped(x, TwoTo(j - 3), TwoTo(j));
  }

  lemma LowBitsDropped(x: nat, m: nat, p: nat)
    requires m >= 1 && p == m * 8
    ensures (x / 8 * 8) / p == x / p
  {
    var a, c := x / 8, x % 8;
    var q, r := a / m, a % m;
    assert 8 * a == q * p + 8 * r;
    UniqueRemainder(8 * a, p, q, 8 * r);
    UniqueRemainder(8 * a + c, p, q, 8 * r + c);
  }

  lemma KeptHigh(x: byte, j: nat)
    requires j < 6
    ensures (x % 64 + 64) / TwoTo(j) % 2 == x / TwoTo(j) % 2
  {
    SplitPower(j, 6);
    EvenMultiple(x % 64, TwoTo(j), TwoTo(6 - j - 1), 64, 1);
    EvenMultiple(x % 64, TwoTo(j), TwoTo(6 - j - 1), 64, x / 64);
  }

  lemma KeptBits(key: seq<byte>, pos: nat)
    requires |key| == 32 && 3 <= pos < 254
    ensures Bit(Clamped(key), pos) == Bit(key, pos)
  {
    if pos < 8 {
      KeptLow(key[0], pos);
    } else if pos >= 248 {
      KeptHigh(key[31], pos - 248);
    }
  }

  lemma {:induction false} Below(s: seq<byte>, i: nat, n: nat)
    requires i + n <= |s|
    ensures LittleEndian(s, i, n) < Pow256(n)
    decreases n
  {
    if n > 0 {
      Below(s, i + 1, n - 1);
    }
  }

  lemma {:induction false} PowersAgree(k: nat)
    ensures Pow256(k) == TwoTo(8 * k)
  {
    if k > 0 {
      PowersAgree(k - 1);
      TwoToSum(8 * k - 8, 8);
      assert TwoTo(8) == 256;
    }
  }

  lemma TopBits(low: nat, p: nat, top: nat)
    requires low < p && 64 <= top < 128
    ensures 64 * p <= low + p * top < 128 * p
  {
    assert p * 64 <= p * top <= p * 127;
  }

  lemma ClampedRange(e: seq<byte>)
    requires |e| == 32 && 64 <= e[31] < 128
    ensures TOP <= LittleEndian(e, 0, 32) < 2 * TOP
  {
    SplitBytes(e, 0, 31, 1);
    assert LittleEndian(e, 31, 1) == e[31] + 256 * LittleEndian(e, 32, 0) == e[31];
    Below(e, 0, 31);
    TopIsPower();
    TopBits(LittleEndian(e, 0, 31), Pow256(31), e[31]);
  }

  lemma LowBitsCleared(e: seq<byte>, n: nat)
    requires 0 < n <= |e| && e[0] % 8 == 0
    ensures LittleEndian(e, 0, n) % 8 == 0
  {
    assert LittleEndian(e, 0, n) == e[0] + 256 * LittleEndian(e, 1, n - 1);
  }

  lemma SameBitsKept(key: seq<byte>, k: nat, l: nat, pos: nat)
    requires |key| == 32 && k == LittleEndian(Clamped(key), 0, |key|) && l == LittleEndian(key, 0, |key|)
    requires 3 <= pos < 254
    ensures BitOf(k, pos) == BitOf(l, pos)
  {
    KeptBits(key, pos);
    BitIsOfNumber(Clamped(key), pos);
    BitIsOfNumber(key, pos);
  }

  lemma AllBitsKept(key: seq<byte>, k: nat, l: nat)
    requires |key| == 32 && k == LittleEndian(Clamped(key), 0, |key|) && l == LittleEndian(key, 0, |key|)
    ensures forall pos :: 3 <= pos < 254 ==> BitOf(k, pos) == BitOf(l, pos)
  {
    forall pos | 3 <= pos < 254 ensures BitOf(k, pos) == BitOf(l, pos) {
      SameBitsKept(key, k, l, pos);
    }
  }

  /** Clamping a key makes its scalar. */
  lemma ClampedIsScalar(key: seq<byte>)
    requires |key| == 32
    ensures IsScalar(LittleEndian(Clamped(key), 0, |key|), LittleEndian(key, 0, |key|))
  {
    var k, l := LittleEndian(Clamped(key), 0, |key|), LittleEndian(key, 0, |key|);
    ClampedRange(Clamped(key));
    LowBitsCleared(Clamped(key), |key|);
    AllBitsKept(key, k, l);
  }

  // ---------------------------------------------------------------- there is only one scalar

  lemma SmallPowers()
    ensures TwoTo(0) == 1 && TwoTo(1) == 2 && TwoTo(2) == 4
  {
  }

  lemma {:induction false} NoBits(k: nat, pos: nat)
    requires k % 8 == 0 && pos < 3
    ensures BitOf(k, pos) == 0
  {
    SmallPowers();
    var n := k / 8;
    assert k == 8 * n;
    if pos == 0 {
      assert BitOf(k, pos) == k / 1 % 2;
    } else if pos == 1 {
      assert k / 2 == 4 * n;
    } else {
      assert k / 4 == 2 * n;
    }
  }

  lemma TopBit(k: nat)
    requires TOP <= k < 2 * TOP
    ensures BitOf(k, 254) == 1
  {
    TopIsPower();
    UniqueRemainder(k, TOP, 1, k - TOP);
  }

  lemma {:induction false} SameBits(a: nat, b: nat, n: nat)
    requires a < TwoTo(n) && b < TwoTo(n) && forall pos :: 0 <= pos < n ==> BitOf(a, pos) == BitOf(b, pos)
    ensures a == b
  {
    if n > 0 {
      assert BitOf(a, 0) == BitOf(b, 0) && TwoTo(0) == 1;
      forall pos | 0 <= pos < n - 1 ensures BitOf(a / 2, pos) == BitOf(b / 2, pos) {
        Halved(a, pos);
        Halved(b, pos);
        assert BitOf(a, pos + 1) == BitOf(b, pos + 1);
      }
      SameBits(a / 2, b / 2, n - 1);
    }
  }

  lemma Halved(k: nat, pos: nat)
    ensures BitOf(k / 2, pos) == BitOf(k, pos + 1)
  {
    var p := TwoTo(pos);
    var q, r := k / 2 / p, k / 2 % p;
    assert k == q * (2 * p) + (2 * r + k % 2);
    UniqueRemainder(k, 2 * p, q, 2 * r + k % 2);
  }

  /** A key has one scalar. */
  lemma ScalarIsUnique(a: nat, b: nat, key: nat)
    requires IsScalar(a, key) && IsScalar(b, key)
    ensures a == b
  {
    forall pos | 0 <= pos < 255 ensures BitOf(a, pos) == BitOf(b, pos) {
      if pos < 3 {
        NoBits(a, pos);
        NoBits(b, pos);
      } else if pos == 254 {
        TopBit(a);
        TopBit(b);
      }
    }
    TopIsPower();
    SameBits(a, b, 255);
  }
}
