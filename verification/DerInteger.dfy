/**
 * INTEGER contents as cryptobyte writes and reads them: minimal two's complement of at least one byte.
 * The three writers and the three readers of asn1.go are compared with the one encoding that there is.
 */
module DerInteger {
  import opened Words
  import opened Bytes
  import opened Division
  import opened Mpint

  const MIN64 := -0x8000_0000_0000_0000
  const MAX64 := 0x7fff_ffff_ffff_ffff
  const TWO64 := 0x1_0000_0000_0000_0000

  /** The contents of an INTEGER. */
  function Contents(n: int): seq<byte> {
    if n == 0 then [0] else IntBytes(n)
  }

  /** checkASN1Integer. */
  predicate Checked(s: seq<byte>) {
    s != [] && (|s| == 1 || (!(s[0] == 0 && s[1] < 128) && !(s[0] == 255 && s[1] >= 128)))
  }

  /** The check lets exactly the one encoding of each number through. */
  lemma CheckedIff(s: seq<byte>, n: int)
    ensures Checked(s) && Signed(s) == n <==> s == Contents(n)
  {
    OneByte(0);
    if Checked(s) && Signed(s) == n && s != [0] {
      ParseIsSigned(s);
      MinimalIsMarshalled(s);
    }
    if s == Contents(n) {
      ParseIsSigned(s);
      ParseMarshal(n);
      MarshalIsMinimal(n);
    }
  }

  lemma OneByte(b: byte)
    ensures FromBigEndian([b]) == b && Pow256(1) == 256
  {
    assert FromBigEndian([b]) == FromBigEndian([b][..0]) * 256 + b;
  }

  // ---------------------------------------------------------------- writing

  /** Two's complement byte by byte, as few as will do. */
  function Complement(v: int): (s: seq<byte>)
    ensures |s| > 0
    decreases if v < 0 then -v else v
  {
    if -128 <= v < 128 then [v % 256] else Complement(v / 256) + [v % 256]
  }

  lemma {:induction false} ComplementOk(v: int)
    ensures Checked(Complement(v)) && Signed(Complement(v)) == v
    ensures Complement(v)[0] >= 128 <==> v < 0
    decreases if v < 0 then -v else v
  {
    if -128 <= v < 128 {
      OneByte(v % 256);
    } else {
      ComplementOk(v / 256);
      LastByte(Complement(v / 256), v);
    }
  }

  lemma LastByte(t: seq<byte>, v: int)
    requires !(-128 <= v < 128) && Checked(t) && Signed(t) == v / 256 && (t[0] >= 128 <==> v < 0)
    ensures Checked(t + [v % 256]) && Signed(t + [v % 256]) == v && (t + [v % 256])[0] == t[0]
  {
    var s := t + [v % 256];
    assert s[..|t|] == t;
    if |t| == 1 {
      OneByte(t[0]);
      assert t == [t[0]];
    }
  }

  lemma ComplementIs(v: int)
    ensures Complement(v) == Contents(v)
  {
    ComplementOk(v);
    CheckedIff(Complement(v), v);
  }

  /** v shifted right by k bytes. */
  function Shifted(v: int, k: nat): int
    decreases k, v
  {
    if k == 0 then v else Shifted(v / 256, k - 1)
  }

  lemma {:induction false} ByteAt(v: int, k: nat)
    requires k < |Complement(v)|
    ensures Complement(v)[|Complement(v)| - 1 - k] == Shifted(v, k) % 256
    decreases k
  {
    if k > 0 {
      ByteAt(v / 256, k - 1);
    }
  }

  /** The loop that both fixed-width writers end with. */
  method EmitBytes(v: int, count: nat) returns (c: seq<byte>)
    requires count == |Complement(v)|
    ensures c == Contents(v)
  {
    c := [];
    var length := count;
    while length > 0
      invariant 0 <= length <= count && c == Complement(v)[..count - length]
    {
      ByteAt(v, length - 1);
      c := c + [Shifted(v, length - 1) % 256];
      length := length - 1;
    }
    ComplementIs(v);
  }

  /** addASN1Signed. */
  method AddSigned(v: int) returns (c: seq<byte>)
    requires MIN64 <= v <= MAX64
    ensures c == Contents(v)
  {
    var length, i := 1, v;
    while i >= 0x80 || i < -0x80
      invariant length - 1 + |Complement(i)| == |Complement(v)|
      decreases if i < 0 then -i else i
    {
      i, length := i / 256, length + 1;
    }
    c := EmitBytes(v, length);
  }

  /** AddASN1Uint64. */
  method AddUnsigned(v: nat) returns (c: seq<byte>)
    requires v < TWO64
    ensures c == Contents(v)
  {
    var length, i := 1, v;
    while i >= 0x80
      invariant length - 1 + |Complement(i)| == |Complement(v)|
    {
      i, length := i / 256, length + 1;
    }
    c := EmitBytes(v, length);
  }

  /** AddASN1BigInt, where the first of no bytes is asked for exactly for -1: the original panics there. */
  method AddBig(n: int) returns (c: Option<seq<byte>>)
    ensures c.None? <==> n == -1
    ensures c.Some? ==> c.value == Contents(n)
  {
    if n < 0 {
      var bytes := Invert(Digits(-n - 1));
      if bytes == [] {
        return None;
      }
      c := Some(if bytes[0] < 128 then [255] + bytes else bytes);
    } else if n == 0 {
      c := Some([0]);
    } else {
      var bytes := Digits(n);
      c := Some(if bytes[0] >= 128 then [0] + bytes else bytes);
    }
  }

  // ---------------------------------------------------------------- reading

  /** What the readers of each width make of the contents. */
  function ReadBig(s: seq<byte>): Option<int> {
    if Checked(s) then Some(ParseInt(s)) else None
  }

  function ReadSigned(s: seq<byte>): Option<int> {
    if Checked(s) && |s| <= 8 then Some(Signed(s)) else None
  }

  function ReadUnsigned(s: seq<byte>): Option<int> {
    if Checked(s) && s[0] < 128 && (|s| <= 8 || (|s| == 9 && s[0] == 0)) then Some(FromBigEndian(s)) else None
  }

  /** A big integer is read from its one encoding and from nothing else. */
  lemma ReadBigIff(s: seq<byte>, n: int)
    ensures ReadBig(s) == Some(n) <==> s == Contents(n)
  {
    ParseIsSigned(s);
    CheckedIff(s, n);
  }

  /** So is a number of 64 bits with sign, exactly if it is one. */
  lemma ReadSignedIff(s: seq<byte>, n: int)
    ensures ReadSigned(s) == Some(n) <==> s == Contents(n) && MIN64 <= n <= MAX64
  {
    CheckedIff(s, n);
    if s == Contents(n) {
      EightBytesIff(s);
    }
  }

  /** And one without. */
  lemma ReadUnsignedIff(s: seq<byte>, n: int)
    ensures ReadUnsigned(s) == Some(n) <==> s == Contents(n) && 0 <= n < TWO64
  {
    CheckedIff(s, n);
    if s != [] && s[0] < 128 {
      if s == Contents(n) {
        NineBytesIff(s);
      }
    } else if s != [] {
      FromBigEndianInverse(s);
    }
  }

  lemma {:induction false} TopBit(s: seq<byte>)
    requires s != []
    ensures s[0] >= 128 <==> 2 * FromBigEndian(s) >= Pow256(|s|)
    decreases |s|
  {
    if |s| == 1 {
      OneByte(s[0]);
      assert s == [s[0]];
    } else {
      var n := |s| - 1;
      TopBit(s[..n]);
      Halfway(FromBigEndian(s[..n]), Pow256(n - 1), s[n]);
    }
  }

  lemma Halfway(v: int, q: int, b: byte)
    ensures 2 * v >= 256 * q <==> 2 * (v * 256 + b) >= 256 * (256 * q)
  {
    var h := 128 * q;
    if v >= h {
      assert v * 256 + b >= h * 256;
    } else {
      assert v * 256 + b < (v + 1) * 256 <= h * 256;
    }
  }

  /** A number that needs its leading byte is large. */
  lemma {:induction false} Large(s: seq<byte>)
    requires |s| >= 2 && (s[0] != 0 || s[1] >= 128)
    ensures FromBigEndian(s) >= 128 * Pow256(|s| - 2)
    decreases |s|
  {
    var t := s[..|s| - 1];
    if |s| == 2 {
      assert FromBigEndian(t) == FromBigEndian(t[..0]) * 256 + t[0] && Pow256(0) == 1;
    } else {
      Large(t);
    }
  }

  lemma {:induction false} PowerGrows(k: nat, m: nat)
    requires k <= m
    ensures Pow256(k) <= Pow256(m)
  {
    if k < m {
      PowerGrows(k, m - 1);
    }
  }

  lemma SevenBytes()
    ensures 256 * Pow256(7) == TWO64 && Pow256(8) == TWO64 && Pow256(7) == 0x100_0000_0000_0000
  {
    Powers();
    assert Pow256(8) == 256 * Pow256(7);
  }

  /** Eight bytes are enough exactly for numbers of 64 bits. */
  lemma EightBytesIff(s: seq<byte>)
    requires Checked(s)
    ensures |s| <= 8 <==> MIN64 <= Signed(s) <= MAX64
  {
    SevenBytes();
    FromBigEndianInverse(s);
    TopBit(s);
    if |s| <= 8 {
      PowerGrows(|s|, 8);
    } else {
      PowerGrows(7, |s| - 2);
      if s[0] < 128 {
        Large(s);
      } else {
        Large(Inverted(s));
        InvertedValue(s);
      }
    }
  }

  lemma NineBytesIff(s: seq<byte>)
    requires Checked(s) && s[0] < 128
    ensures |s| <= 8 || (|s| == 9 && s[0] == 0) <==> FromBigEndian(s) < TWO64
  {
    SevenBytes();
    FromBigEndianInverse(s);
    if |s| <= 8 {
      PowerGrows(|s|, 8);
    } else if |s| == 9 {
      LeadingByte(s);
    } else {
      PowerGrows(8, |s| - 2);
      Large(s);
    }
  }

  lemma {:induction false} PowerSum(j: nat, k: nat)
    ensures Pow256(j) * Pow256(k) == Pow256(j + k)
  {
    if j > 0 {
      PowerSum(j - 1, k);
      Associates(Pow256(j - 1), Pow256(k));
    }
  }

  lemma Associates(a: int, b: int)
    ensures 256 * a * b == 256 * (a * b)
  {
  }

  /** asn1Signed: the bytes are shifted in, then up to the top of the word and down again to spread the sign. */
  method Asn1Signed(s: seq<byte>) returns (ok: bool, out: int)
    ensures ok <==> |s| <= 8
    ensures ok ==> out == Signed(s)
  {
    out := 0;
    if |s| > 8 {
      return false, 0;
    }
    SevenBytes();
    FromBigEndianInverse(s);
    PowerGrows(|s|, 8);
    out := ShiftIn(s);
    var k := 8 - |s|;
    var up := U64(out * Pow256(k));
    var word := if up >= 0x8000_0000_0000_0000 then up - TWO64 else up;
    Spread(s, k);
    ok, out := true, word / Pow256(k);
  }

  /** Eight bytes in 64 bits: nothing is shifted out but leading zeros. */
  method ShiftIn(s: seq<byte>) returns (out: uint64)
    requires FromBigEndian(s) < TWO64
    ensures out == FromBigEndian(s)
  {
    out := 0;
    var i := 0;
    while i < |s|
      invariant 0 <= i <= |s| && out == FromBigEndian(s[..i])
    {
      assert s[..i + 1][..i] == s[..i];
      PrefixIsSmaller(s, i + 1);
      out := U64(out * 256) + s[i];
      i := i + 1;
    }
    assert s[..i] == s;
  }

  lemma {:induction false} PrefixIsSmaller(s: seq<byte>, i: nat)
    requires i <= |s|
    ensures FromBigEndian(s[..i]) <= FromBigEndian(s)
  {
    if i < |s| {
      PrefixIsSmaller(s[..|s| - 1], i);
      assert s[..|s| - 1][..i] == s[..i];
    } else {
      assert s[..i] == s;
    }
  }

  /** A number at the top of the word, shifted down again. */
  lemma Spread(s: seq<byte>, k: nat)
    requires |s| + k == 8
    ensures var up := U64(FromBigEndian(s) * Pow256(k));
            (if up >= 0x8000_0000_0000_0000 then up - TWO64 else up) / Pow256(k) == Signed(s)
  {
    SevenBytes();
    FromBigEndianInverse(s);
    PowerSum(|s|, k);
    UpAndDown(FromBigEndian(s), Pow256(|s|), Pow256(k));
    if s != [] {
      TopBit(s);
    }
  }

  lemma UpAndDown(v: nat, q: nat, p: nat)
    requires v < q && p > 0 && q * p == TWO64
    ensures var up := U64(v * p);
            (if up >= 0x8000_0000_0000_0000 then up - TWO64 else up) / p == if 2 * v >= q then v - q else v
  {
    Scaled(v, q, p);
    UniqueRemainder(v * p, TWO64, 0, v * p);
    UniqueRemainder(v * p, p, v, 0);
    assert (v - q) * p == v * p - TWO64;
    UniqueRemainder((v - q) * p, p, v - q, 0);
  }

  lemma Scaled(v: nat, q: nat, p: nat)
    requires v < q && p > 0
    ensures 0 <= v * p < q * p && (2 * v >= q <==> 2 * (v * p) >= q * p)
  {
    MultipleIsLarge(q - v, p);
    Difference(q, v, p);
    Difference(2 * v, q, p);
    Product(v, p);
    if 2 * v < q {
      MultipleIsLarge(q - 2 * v, p);
      Difference(q, 2 * v, p);
    } else {
      Product(2 * v - q, p);
    }
  }

  lemma Difference(a: int, b: int, p: int)
    ensures (a - b) * p == a * p - b * p
  {
  }

  lemma Product(a: nat, b: nat)
    ensures a * b >= 0
  {
  }

  /** asn1Unsigned, for contents that are there. */
  method Asn1Unsigned(s: seq<byte>) returns (ok: bool, out: uint64)
    requires s != []
    ensures ok <==> s[0] < 128 && (|s| <= 8 || (|s| == 9 && s[0] == 0))
    ensures ok ==> out == FromBigEndian(s)
  {
    if |s| > 9 || (|s| == 9 && s[0] != 0) || s[0] >= 128 {
      return false, 0;
    }
    SevenBytes();
    FromBigEndianInverse(s);
    if |s| == 9 {
      LeadingByte(s);
    } else {
      PowerGrows(|s|, 8);
    }
    out := ShiftIn(s);
    ok := true;
  }

  /** readASN1Int64, readASN1Uint64 and readASN1BigInt behind the header. */
  method ReadInt64(s: seq<byte>) returns (r: Option<int>)
    ensures r == ReadSigned(s)
  {
    r := None;
    if Checked(s) {
      var ok, out := Asn1Signed(s);
      r := if ok then Some(out) else None;
    }
  }

  method ReadUint64(s: seq<byte>) returns (r: Option<int>)
    ensures r == ReadUnsigned(s)
  {
    r := None;
    if Checked(s) {
      var ok, out := Asn1Unsigned(s);
      r := if ok then Some(out) else None;
    }
  }

  method ReadBigInt(s: seq<byte>) returns (r: Option<int>)
    ensures r == ReadBig(s)
  {
    if !Checked(s) {
      return None;
    }
    if s[0] >= 128 {
      var neg := Invert(s);
      r := Some(-(FromBigEndian(neg) + 1));
    } else {
      r := Some(FromBigEndian(s));
    }
  }
}
