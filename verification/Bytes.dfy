/** Byte strings: fixed-width big-endian numbers, as the codecs of the repository have them, and concatenation. */
module Bytes {
  import opened Words
  import opened Division

  function Pow256(k: nat): (p: nat)
    ensures p >= 1
  {
    if k == 0 then 1 else 256 * Pow256(k - 1)
  }

  /** The k low-order bytes of n, most significant first. */
  function BigEndian(n: nat, k: nat): (s: seq<byte>)
    ensures |s| == k
    decreases k, n
  {
    if k == 0 then [] else BigEndian(n / 256, k - 1) + [n % 256]
  }

  function FromBigEndian(s: seq<byte>): nat {
    if s == [] then 0 else FromBigEndian(s[..|s| - 1]) * 256 + s[|s| - 1]
  }

  lemma {:induction false} BigEndianInverse(n: nat, k: nat)
    ensures FromBigEndian(BigEndian(n, k)) == n % Pow256(k)
  {
    if k > 0 {
      var s := BigEndian(n, k);
      assert s[..k - 1] == BigEndian(n / 256, k - 1);
      BigEndianInverse(n / 256, k - 1);
      SplitModulus(n, Pow256(k - 1));
    }
  }

  lemma SplitModulus(n: nat, p: nat)
    requires p >= 1
    ensures n % (256 * p) == (n / 256 % p) * 256 + n % 256
  {
    var q, r := n / 256 / p, n / 256 % p;
    assert n / 256 == q * p + r;
    assert n == q * (256 * p) + (r * 256 + n % 256);
    UniqueRemainder(n, 256 * p, q, r * 256 + n % 256);
  }

  lemma {:induction false} FromBigEndianInverse(s: seq<byte>)
    ensures FromBigEndian(s) < Pow256(|s|)
    ensures BigEndian(FromBigEndian(s), |s|) == s
  {
    if s != [] {
      var t, x := s[..|s| - 1], s[|s| - 1];
      FromBigEndianInverse(t);
      assert FromBigEndian(s) / 256 == FromBigEndian(t) && FromBigEndian(s) % 256 == x;
      assert s == t + [x];
    }
  }

  lemma Powers()
    ensures Pow256(1) == 0x100 && Pow256(2) == 0x1_0000 && Pow256(3) == 0x100_0000
    ensures Pow256(4) == 0x1_0000_0000 && Pow256(8) == 0x1_0000_0000_0000_0000
  {
    assert Pow256(5) == 0x100_0000_0000 && Pow256(6) == 0x1_0000_0000_0000;
  }

  lemma FourBytesBack(n: nat)
    requires n < 0x1_0000_0000
    ensures FromBigEndian(BigEndian(n, 4)) == n
  {
    Powers();
    BigEndianInverse(n, 4);
    UniqueRemainder(n, 0x1_0000_0000, 0, n);
  }

  /** The most significant byte of k is zero exactly when one byte fewer is enough. */
  lemma LeadingByte(s: seq<byte>)
    requires s != []
    ensures s[0] == 0 <==> FromBigEndian(s) < Pow256(|s| - 1)
    decreases |s|
  {
    if |s| == 1 {
      assert FromBigEndian(s) == FromBigEndian(s[..0]) * 256 + s[0];
    } else {
      LeadingByte(s[..|s| - 1]);
    }
  }

  function Concat(parts: seq<Octets>): Octets {
    if parts == [] then [] else parts[0] + Concat(parts[1..])
  }

  lemma {:induction false} ConcatAppend(parts: seq<Octets>, p: Octets)
    ensures Concat(parts + [p]) == Concat(parts) + p
  {
    if parts == [] {
      assert [p][1..] == [];
    } else {
      ConcatAppend(parts[1..], p);
      assert (parts + [p])[1..] == parts[1..] + [p];
    }
  }

  lemma ThreeParts(a: Octets, b: Octets, c: Octets)
    ensures var s := a + b + c; s[..|a|] == a && s[|a|..|a| + |b|] == b && s[|a| + |b|..] == c
  {
  }

  lemma Regroup(a: Octets, b: Octets, c: Octets)
    ensures a + (b + c) == a + b + c
  {
  }
}
