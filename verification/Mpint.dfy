/** Multiple precision integers of section 5 of RFC 4251: intLength, marshalInt and parseInt of messages.go. */
module Mpint {
  import opened Words
  import opened Bytes

  // ---------------------------------------------------------------- what big.Int offers

  /** The bytes of a natural number, most significant first, without leading zeros. */
  function Digits(n: nat): (s: seq<byte>)
    ensures n > 0 ==> |s| > 0
  {
    if n == 0 then [] else Digits(n / 256) + [n % 256]
  }

  function BitLen(n: nat): nat {
    if n == 0 then 0 else 1 + BitLen(n / 2)
  }

  lemma {:induction false} DigitsValue(n: nat)
    ensures FromBigEndian(Digits(n)) == n
    ensures n > 0 ==> Digits(n)[0] != 0
  {
    if n > 0 {
      DigitsValue(n / 256);
      assert Digits(n)[..|Digits(n)| - 1] == Digits(n / 256);
    }
  }

  lemma {:induction false} DigitsOfBigEndian(s: seq<byte>)
    requires s != [] ==> s[0] != 0
    ensures Digits(FromBigEndian(s)) == s
  {
    if s != [] {
      var t := s[..|s| - 1];
      DigitsOfBigEndian(t);
      LeadingByte(s);
      assert FromBigEndian(s) / 256 == FromBigEndian(t) && FromBigEndian(s) % 256 == s[|s| - 1];
      assert s == t + [s[|s| - 1]];
    }
  }

  // ---------------------------------------------------------------- two's complement

  /** The number that the bytes stand for in two's complement. */
  function Signed(s: seq<byte>): int {
    if s != [] && s[0] >= 128 then FromBigEndian(s) - Pow256(|s|) else FromBigEndian(s)
  }

  function Inverted(s: seq<byte>): (r: seq<byte>)
    ensures |r| == |s|
  {
    seq(|s|, i requires 0 <= i < |s| => 255 - s[i])
  }

  lemma {:induction false} InvertedValue(s: seq<byte>)
    ensures FromBigEndian(Inverted(s)) == Pow256(|s|) - 1 - FromBigEndian(s)
  {
    if s != [] {
      var t := s[..|s| - 1];
      InvertedValue(t);
      assert Inverted(s)[..|s| - 1] == Inverted(t);
    }
  }

  /** The contents that marshalInt writes. */
  function IntBytes(n: int): seq<byte> {
    if n < 0 then
      var bytes := Inverted(Digits(-n - 1));
      if bytes == [] || bytes[0] < 128 then [255] + bytes else bytes
    else if n == 0 then []
    else
      var bytes := Digits(n);
      if bytes[0] >= 128 then [0] + bytes else bytes
  }

  /** What parseInt makes of the contents. */
  function ParseInt(s: seq<byte>): int {
    if s != [] && s[0] >= 128 then -(FromBigEndian(Inverted(s)) + 1) else FromBigEndian(s)
  }

  /** parseInt reads two's complement. */
  lemma ParseIsSigned(s: seq<byte>)
    ensures ParseInt(s) == Signed(s)
  {
    InvertedValue(s);
  }

  lemma {:induction false} LeadingZero(s: seq<byte>)
    ensures FromBigEndian([0] + s) == FromBigEndian(s)
    decreases |s|
  {
    if s != [] {
      var t := s[..|s| - 1];
      LeadingZero(t);
      assert ([0] + s)[..|s|] == [0] + t;
    } else {
      assert FromBigEndian([0]) == FromBigEndian([0][..0]) * 256 + 0;
      assert [0] + s == [0];
    }
  }

  /** parseInt undoes marshalInt. */
  lemma ParseMarshal(n: int)
    ensures ParseInt(IntBytes(n)) == n
  {
    if n < 0 {
      DigitsValue(-n - 1);
      ParseNegative(Digits(-n - 1), IntBytes(n));
    } else if n > 0 {
      DigitsValue(n);
      ParsePositive(Digits(n), IntBytes(n));
    }
  }

  lemma ParsePositive(d: seq<byte>, s: seq<byte>)
    requires d != [] && s == if d[0] >= 128 then [0] + d else d
    ensures ParseInt(s) == FromBigEndian(d)
  {
    LeadingZero(d);
  }

  lemma ParseNegative(d: seq<byte>, s: seq<byte>)
    requires var bytes := Inverted(d); s == if bytes == [] || bytes[0] < 128 then [255] + bytes else bytes
    ensures ParseInt(s) == -1 - FromBigEndian(d)
  {
    var bytes := Inverted(d);
    assert Inverted(bytes) == d;
    if bytes == [] || bytes[0] < 128 {
      assert Inverted([255] + bytes) == [0] + d;
      LeadingZero(d);
    }
  }

  /** No redundant sign byte in front, as section 5 of RFC 4251 demands. */
  predicate Minimal(s: seq<byte>) {
    s == [] || if |s| == 1 then s[0] != 0 else !(s[0] == 0 && s[1] < 128) && !(s[0] == 255 && s[1] >= 128)
  }

  lemma MarshalIsMinimal(n: int)
    ensures Minimal(IntBytes(n))
  {
    if n < 0 {
      DigitsValue(-n - 1);
    } else if n > 0 {
      DigitsValue(n);
    }
  }

  /** The minimal form is unique: it is the one that marshalInt writes. */
  lemma MinimalIsMarshalled(s: seq<byte>)
    requires Minimal(s)
    ensures IntBytes(ParseInt(s)) == s
  {
    if s == [] {
    } else if s[0] >= 128 {
      NegativeIsMarshalled(s);
    } else {
      StripZero(s);
      PositiveHead(s);
    }
  }

  lemma NegativeIsMarshalled(s: seq<byte>)
    requires Minimal(s) && s != [] && s[0] >= 128
    ensures IntBytes(ParseInt(s)) == s
  {
    var t := Inverted(s);
    StripZero(t);
    NegativeBytes(s, t, Digits(FromBigEndian(t)));
  }

  lemma NegativeBytes(s: seq<byte>, t: seq<byte>, d: seq<byte>)
    requires Minimal(s) && s != [] && s[0] >= 128 && t == Inverted(s) && d == if t[0] == 0 then t[1..] else t
    ensures var bytes := Inverted(d); s == if bytes == [] || bytes[0] < 128 then [255] + bytes else bytes
  {
    assert Inverted(t) == s;
    if t[0] == 0 {
      assert Inverted(t[1..]) == s[1..];
      assert s == [s[0]] + s[1..];
    }
  }

  /** Digits of a number given with at most one leading zero. */
  lemma StripZero(s: seq<byte>)
    requires s != [] && (s[0] == 0 && |s| > 1 ==> s[1] != 0)
    ensures Digits(FromBigEndian(s)) == if s[0] == 0 then s[1..] else s
  {
    if s[0] == 0 {
      assert s == [0] + s[1..];
      LeadingZero(s[1..]);
      DigitsOfBigEndian(s[1..]);
    } else {
      DigitsOfBigEndian(s);
    }
  }

  lemma PositiveHead(s: seq<byte>)
    requires Minimal(s) && s != [] && s[0] < 128
    ensures FromBigEndian(s) > 0
  {
    StripZero(s);
    assert Digits(0) == [];
  }

  /** Any other form of a number is longer. */
  lemma {:induction false} MinimalIsShortest(s: seq<byte>)
    ensures |IntBytes(ParseInt(s))| <= |s|
    ensures !Minimal(s) ==> |IntBytes(ParseInt(s))| < |s|
  {
    if Minimal(s) {
      MinimalIsMarshalled(s);
    } else if |s| == 1 {
      assert s == [0] && FromBigEndian(s) == FromBigEndian(s[..0]) * 256 + 0;
    } else {
      RedundantByte(s);
      MinimalIsShortest(s[1..]);
    }
  }

  lemma RedundantByte(s: seq<byte>)
    requires |s| > 1 && !Minimal(s)
    ensures ParseInt(s) == ParseInt(s[1..])
  {
    assert s == [s[0]] + s[1..];
    if s[0] == 0 {
      LeadingZero(s[1..]);
    } else {
      assert Inverted(s) == [0] + Inverted(s[1..]);
      LeadingZero(Inverted(s[1..]));
    }
  }

  // ---------------------------------------------------------------- lengths

  /** Whole bytes and the top bit, in terms of the number of bits. */
  lemma {:induction false} DigitsBits(n: nat)
    ensures |Digits(n)| == (BitLen(n) + 7) / 8
    ensures n > 0 ==> (Digits(n)[0] >= 128 <==> BitLen(n) % 8 == 0)
    decreases n
  {
    if n >= 256 {
      DigitsBits(n / 256);
      BitLenOfByte(n);
      EightMore(BitLen(n / 256));
      LastDigit(n);
    } else if n > 0 {
      assert Digits(n) == [] + [n];
      SmallBits(n);
    }
  }

  lemma EightMore(bits: nat)
    ensures (8 + bits + 7) / 8 == 1 + (bits + 7) / 8 && (8 + bits) % 8 == bits % 8
  {
  }

  lemma LastDigit(n: nat)
    requires n >= 256
    ensures |Digits(n)| == |Digits(n / 256)| + 1 && Digits(n)[0] == Digits(n / 256)[0]
  {
  }

  lemma BitLenOfByte(n: nat)
    requires n >= 256
    ensures BitLen(n) == 8 + BitLen(n / 256)
  {
    BitLenOfNibble(n);
    BitLenOfNibble(n / 16);
  }

  lemma BitLenOfNibble(n: nat)
    requires n >= 16
    ensures BitLen(n) == 4 + BitLen(n / 16)
  {
    assert BitLen(n) == 1 + BitLen(n / 2);
    assert BitLen(n / 2) == 1 + BitLen(n / 2 / 2) && n / 2 / 2 == n / 4;
    assert BitLen(n / 4) == 1 + BitLen(n / 4 / 2) && n / 4 / 2 == n / 8;
    assert BitLen(n / 8) == 1 + BitLen(n / 8 / 2) && n / 8 / 2 == n / 16;
  }

  lemma SmallBits(n: nat)
    requires 0 < n < 256
    ensures 1 <= BitLen(n) <= 8 && (n >= 128 <==> BitLen(n) == 8)
  {
    if n >= 16 {
      BitLenOfNibble(n);
      NibbleBits(n / 16);
    } else {
      NibbleBits(n);
    }
  }

  lemma NibbleBits(n: nat)
    requires 0 < n < 16
    ensures 1 <= BitLen(n) <= 4 && (n >= 8 <==> BitLen(n) == 4)
  {
    assert BitLen(n) == 1 + BitLen(n / 2);
    assert n >= 2 ==> BitLen(n / 2) == 1 + BitLen(n / 2 / 2);
    assert n >= 4 ==> BitLen(n / 2 / 2) == 1 + BitLen(n / 2 / 2 / 2);
    assert n >= 8 ==> BitLen(n / 2 / 2 / 2) == 1 + BitLen(n / 2 / 2 / 2 / 2);
  }

  /** intLength: the four length bytes, the digits, and a sign byte if the top bit is taken. */
  function IntLength(n: int): nat {
    if n == 0 then 4
    else
      var bits := if n < 0 then BitLen(-n - 1) else BitLen(n);
      4 + (if bits % 8 == 0 then 1 else 0) + (bits + 7) / 8
  }

  /** intLength counts exactly what marshalInt writes. */
  lemma LengthIsExact(n: int)
    ensures IntLength(n) == 4 + |IntBytes(n)|
  {
    if n < 0 {
      DigitsBits(-n - 1);
    } else {
      DigitsBits(n);
    }
  }

  // ---------------------------------------------------------------- the code

  /** Copies s into the buffer. */
  method Copy(to: array<byte>, at: nat, s: seq<byte>)
    requires at + |s| <= to.Length
    modifies to
    ensures to[..] == old(to[..])[..at] + s + old(to[..])[at + |s|..]
  {
    var i := 0;
    while i < |s|
      invariant 0 <= i <= |s|
      invariant forall j :: 0 <= j < to.Length ==> to[j] == if at <= j < at + i then s[j - at] else old(to[j])
    {
      to[at + i] := s[i];
      i := i + 1;
    }
  }

  /** The bytes of s with every bit flipped. */
  method Invert(s: seq<byte>) returns (r: seq<byte>)
    ensures r == Inverted(s)
  {
    r := s;
    var i := 0;
    while i < |s|
      invariant 0 <= i <= |s| == |r|
      invariant forall j :: 0 <= j < |s| ==> r[j] == if j < i then 255 - s[j] else s[j]
    {
      r := r[i := 255 - r[i]];
      i := i + 1;
    }
  }

  /** marshalInt: the length and the contents go into intLength bytes of the buffer, the rest of which stays. */
  method MarshalInt(to: array<byte>, at: nat, n: int) returns (next: nat)
    requires at + IntLength(n) <= to.Length
    modifies to
    ensures next == at + IntLength(n)
    ensures to[..] == old(to[..])[..at] + BigEndian(|IntBytes(n)|, 4) + IntBytes(n) + old(to[..])[next..]
  {
    LengthIsExact(n);
    var pad, bytes := Parts(n);
    PutParts(to, at, pad, bytes);
    next := at + 4 + |pad| + |bytes|;
  }

  /** The two parts behind the place of their length, and then the length. */
  method PutParts(to: array<byte>, at: nat, pad: seq<byte>, bytes: seq<byte>)
    requires at + 4 + |pad| + |bytes| <= to.Length
    modifies to
    ensures to[..] == old(to[..])[..at] + BigEndian(|pad| + |bytes|, 4) + (pad + bytes)
                      + old(to[..])[at + 4 + |pad| + |bytes|..]
  {
    ghost var a := to[..];
    Copy(to, at + 4, pad);
    ghost var b := to[..];
    Copy(to, at + 4 + |pad|, bytes);
    ghost var c := to[..];
    Copy(to, at, BigEndian(|pad| + |bytes|, 4));
    Layout(a, b, c, at, BigEndian(|pad| + |bytes|, 4), pad, bytes);
  }

  /** The sign byte, if one is needed, and the bytes behind it. */
  method Parts(n: int) returns (pad: seq<byte>, bytes: seq<byte>)
    ensures pad + bytes == IntBytes(n)
  {
    pad, bytes := [], [];
    if n < 0 {
      bytes := Invert(Digits(-n - 1));
      if |bytes| == 0 || bytes[0] < 128 {
        pad := [255];
      }
    } else if n > 0 {
      bytes := Digits(n);
      if bytes[0] >= 128 {
        pad := [0];
      }
    }
  }

  /** Three copies into a buffer, the length last. */
  lemma Layout(a: seq<byte>, b: seq<byte>, c: seq<byte>, at: nat, length: seq<byte>, pad: seq<byte>, bytes: seq<byte>)
    requires |length| == 4 && at + 4 + |pad| + |bytes| <= |a|
    requires b == a[..at + 4] + pad + a[at + 4 + |pad|..]
    requires c == b[..at + 4 + |pad|] + bytes + b[at + 4 + |pad| + |bytes|..]
    ensures c[..at] + length + c[at + 4..] == a[..at] + length + (pad + bytes) + a[at + 4 + |pad| + |bytes|..]
  {
    assert b[..at + 4 + |pad|] == a[..at + 4] + pad;
    assert c[..at] == a[..at];
    assert c[at + 4..] == pad + bytes + a[at + 4 + |pad| + |bytes|..];
  }
}
