/** The framing of gcmCipher: the length in the clear as additional data, the rest sealed by an AEAD. */
module GcmFraming {
  import opened Words
  import opened Bytes
  import opened Framing
  import opened Division

  /** An AEAD: the arguments are the nonce, the additional data and the text. */
  datatype Aead = Aead(seal: (Octets, Octets, Octets) -> Octets, open: (Octets, Octets, Octets) -> Option<Octets>)

  ghost predicate Lawful(a: Aead) {
    forall iv, aad, text {:trigger a.seal(iv, aad, text)} ::
      |a.seal(iv, aad, text)| == |text| + 16 && a.open(iv, aad, a.seal(iv, aad, text)) == Some(text)
  }

  // ---------------------------------------------------------------- the invocation counter

  /** Twelve bytes: four fixed ones and a 64-bit counter, as section 7.1 of RFC 5647 has it. */
  type IV = s: Octets | |s| == 12 witness seq(12, _ => 0)

  function Counter(iv: IV): nat {
    FromBigEndian(iv[4..])
  }

  /** The IV for the k-th packet after this one. */
  function Later(iv: IV, k: nat): IV {
    iv[..4] + BigEndian(Counter(iv) + k, 8)
  }

  lemma LaterCounter(iv: IV, k: nat)
    ensures Counter(Later(iv, k)) == (Counter(iv) + k) % 0x1_0000_0000_0000_0000
  {
    Powers();
    assert Later(iv, k)[4..] == BigEndian(Counter(iv) + k, 8);
    BigEndianInverse(Counter(iv) + k, 8);
  }

  lemma {:induction false} BigEndianWraps(n: nat, k: nat)
    ensures BigEndian(n % Pow256(k), k) == BigEndian(n, k)
  {
    BigEndianInverse(n, k);
    FromBigEndianInverse(BigEndian(n, k));
  }

  lemma BigEndianSame(m: nat, n: nat, k: nat)
    requires m % Pow256(k) == n % Pow256(k)
    ensures BigEndian(m, k) == BigEndian(n, k)
  {
    BigEndianWraps(m, k);
    BigEndianWraps(n, k);
  }

  /** Advancing adds up, wrap-around included. */
  lemma LaterAdds(iv: IV, j: nat, k: nat)
    ensures Later(Later(iv, j), k) == Later(iv, j + k)
  {
    var m := Counter(iv) + j;
    LaterCounter(iv, j);
    SumWraps(m, k);
    SameLow(m % 0x1_0000_0000_0000_0000 + k, m + k);
    assert Later(iv, j)[..4] == iv[..4];
  }

  lemma SameLow(m: nat, n: nat)
    requires m % 0x1_0000_0000_0000_0000 == n % 0x1_0000_0000_0000_0000
    ensures BigEndian(m, 8) == BigEndian(n, 8)
  {
    Powers();
    BigEndianSame(m, n, 8);
  }

  lemma SumWraps(m: nat, k: nat)
    ensures (m % 0x1_0000_0000_0000_0000 + k) % 0x1_0000_0000_0000_0000 == (m + k) % 0x1_0000_0000_0000_0000
  {
  }

  /** No IV is used twice before the counter wraps. */
  lemma NoRepeat(iv: IV, j: nat, k: nat)
    requires j < k < j + 0x1_0000_0000_0000_0000
    ensures Later(iv, j) != Later(iv, k)
  {
    LaterCounter(iv, j);
    LaterCounter(iv, k);
  }

  /** A big-endian counter plus one: the carry goes on as long as bytes wrap to zero. */
  function Bump(s: Octets): (r: Octets)
    ensures |r| == |s|
  {
    if s == [] then []
    else
      var n := |s| - 1;
      if s[n] < 255 then s[..n] + [s[n] + 1] else Bump(s[..n]) + [0]
  }

  lemma {:induction false} BumpAddsOne(s: Octets)
    ensures Bump(s) == BigEndian(FromBigEndian(s) + 1, |s|)
  {
    if s != [] {
      var n, v := |s| - 1, FromBigEndian(s);
      FromBigEndianInverse(s[..n]);
      if s[n] == 255 {
        BumpAddsOne(s[..n]);
      }
      assert (v + 1) / 256 == FromBigEndian(s[..n]) + (if s[n] < 255 then 0 else 1);
    }
  }

  /** The bytes behind position i wrapped, the one at i took the carry, and the others stayed. */
  predicate Carried(s: Octets, r: Octets, i: int) {
    && |s| == |r| && -1 <= i < |s|
    && (i >= 0 ==> s[i] < 255 && r[i] == s[i] + 1)
    && (forall j :: 0 <= j < i ==> r[j] == s[j])
    && (forall j :: i < j < |s| ==> s[j] == 255 && r[j] == 0)
  }

  lemma {:induction false} CarriedIsBump(s: Octets, r: Octets, i: int)
    requires Carried(s, r, i)
    ensures r == Bump(s)
  {
    if s != [] {
      var n := |s| - 1;
      if i < n {
        assert s[n] == 255 && r[n] == 0;
        CarriedIsBump(s[..n], r[..n], i);
      }
      assert r == r[..n] + [r[n]];
    }
  }

  lemma CarriedIsLater(before: IV, after: IV, i: int)
    requires 3 <= i < 12 && before[..4] == after[..4] && Carried(before[4..], after[4..], i - 4)
    ensures after == Later(before, 1)
  {
    CarriedIsBump(before[4..], after[4..], i - 4);
    BumpAddsOne(before[4..]);
    assert after == after[..4] + after[4..];
  }

  /** incIV: the first byte from the end that does not wrap ends the carry. */
  method IncIV(iv: array<byte>)
    requires iv.Length == 12
    modifies iv
    ensures iv[..] == Later(old(iv[..]), 1)
  {
    var i := 11;
    while i >= 4
      invariant 3 <= i <= 11
      invariant forall j :: 0 <= j <= i ==> iv[j] == old(iv[j])
      invariant forall j :: i < j < 12 ==> old(iv[j]) == 255 && iv[j] == 0
    {
      var wraps := iv[i] == 255;
      iv[i] := if wraps then 0 else iv[i] + 1;
      if !wraps {
        break;
      }
      i := i - 1;
    }
    CarriedIsLater(old(iv[..]), iv[..], i);
  }

  // ---------------------------------------------------------------- packets

  function Seal(a: Aead, iv: IV, packet: Octets, pad: Octets): Sealed<IV> {
    if |pad| >= 256 then Sealed([], iv)
    else
      var prefix := BigEndian(1 + |packet| + |pad|, 4);
      Sealed(prefix + a.seal(iv, prefix, [|pad|] + packet + pad), Later(iv, 1))
  }

  /** Reading a packet gives an error, a packet, or an index or slice out of bounds, which is a panic in Go. */
  datatype Opened = Refused | Panics | Took(taken: Taken<IV>)

  /** What the text of a packet gives; padding is a byte, so that 255 + 1 is 0. */
  function OpenText(plain: Octets, rest: Octets, next: IV): Opened {
    if plain == [] then Panics
    else
      var padding: nat := plain[0];
      var end := U32(|plain| - padding);
      if padding < 4 || (padding + 1) % 256 >= |plain| then Refused
      else if 1 <= end <= |plain| then Took(Taken(plain[1..end], rest, next))
      else Panics
  }

  /** The text at the front of the wire is all there, not too long, and authentic. */
  predicate Opens(a: Aead, iv: IV, wire: Octets) {
    && |wire| >= 4
    && var length := FromBigEndian(wire[..4]);
       && length <= MAX_PACKET && 4 + length + 16 <= |wire|
       && a.open(iv, wire[..4], wire[4..4 + length + 16]).Some?
  }

  function OpenWire(a: Aead, iv: IV, wire: Octets): Opened {
    if |wire| < 4 then Refused
    else
      var length := FromBigEndian(wire[..4]);
      if length > MAX_PACKET || |wire| < 4 + length + 16 then Refused
      else
        match a.open(iv, wire[..4], wire[4..4 + length + 16])
        case None => Refused
        case Some(plain) => OpenText(plain, wire[4 + length + 16..], Later(iv, 1))
  }

  /** The packet at the front of the wire, if there is one. */
  function Open(a: Aead, iv: IV, wire: Octets): Option<Taken<IV>> {
    var r := OpenWire(a, iv, wire);
    if r.Took? then Some(r.taken) else None
  }

  /** Exactly which texts make the reader panic: the empty one, and one with padding 255 and too little to hold it. */
  lemma PanicsIff(plain: Octets, rest: Octets, next: IV)
    requires |plain| <= MAX_PACKET
    ensures OpenText(plain, rest, next).Panics? <==> plain == [] || (plain[0] == 255 && |plain| < 256)
  {
    if plain != [] {
      var d := |plain| - plain[0] as int;
      if d >= 0 {
        UniqueRemainder(d, 0x1_0000_0000, 0, d);
      } else {
        UniqueRemainder(d, 0x1_0000_0000, -1, d + 0x1_0000_0000);
      }
    }
  }

  /** What the reader makes of a packet at the front of the wire: the packet, unless it is empty or too long. */
  lemma PacketRoundTrip(a: Aead, iv: IV, packet: Octets, pad: Octets, rest: Octets)
    requires Lawful(a) && 4 <= |pad| < 255 && 1 + |packet| + |pad| < 0x1_0000_0000
    ensures OpenWire(a, iv, Seal(a, iv, packet, pad).bytes + rest) ==
            if Fits(packet, |pad|) then Took(Taken(packet, rest, Seal(a, iv, packet, pad).state)) else Refused
  {
    var length := 1 + |packet| + |pad|;
    var prefix, plain := BigEndian(length, 4), [|pad|] + packet + pad;
    var text := a.seal(iv, prefix, plain);
    var wire := prefix + text + rest;
    Powers();
    BigEndianInverse(length, 4);
    UniqueRemainder(length, 0x1_0000_0000, 0, length);
    assert wire[..4] == prefix && wire[4..4 + length + 16] == text && wire[4 + length + 16..] == rest;
    TextRoundTrip(packet, pad, rest, Later(iv, 1));
  }

  lemma TextRoundTrip(packet: Octets, pad: Octets, rest: Octets, next: IV)
    requires 4 <= |pad| < 255 && 1 + |packet| + |pad| < 0x1_0000_0000
    ensures OpenText([|pad|] + packet + pad, rest, next) == if packet != [] then Took(Taken(packet, rest, next))
            else Refused
  {
    var plain := [|pad|] + packet + pad;
    UniqueRemainder(1 + |packet|, 0x1_0000_0000, 0, 1 + |packet|);
    assert plain[1..1 + |packet|] == packet;
  }

  /** The framing with everything that Framing proves about sequences of packets. */
  function GcmPackets(a: Aead): Framing<IV> {
    Framing((iv, n, packet, pad) => Seal(a, iv, packet, pad), (iv, n, wire) => Open(a, iv, wire),
        length => Padding(length, 4))
  }

  lemma GcmIsFaithful(a: Aead)
    requires Lawful(a)
    ensures Faithful(GcmPackets(a))
  {
    forall iv: IV, packet, pad: Octets, rest | |pad| == Padding(|packet|, 4) && Fits(packet, |pad|)
      ensures Open(a, iv, Seal(a, iv, packet, pad).bytes + rest) ==
              Some(Taken(packet, rest, Seal(a, iv, packet, pad).state))
    {
      PacketRoundTrip(a, iv, packet, pad, rest);
    }
  }

  /** After k packets both sides are k steps along, modulo 2^64. */
  lemma {:induction false} CounterAfter(a: Aead, iv: IV, n: uint32, packets: seq<Octets>, pads: seq<Octets>)
    requires |pads| == |packets| && forall i :: 0 <= i < |pads| ==> |pads[i]| < 256
    ensures WriteAll(GcmPackets(a), iv, n, packets, pads).state == Later(iv, |packets|)
    decreases |packets|
  {
    if packets != [] {
      CounterAfter(a, Later(iv, 1), U32(n + 1), packets[1..], pads[1..]);
      LaterAdds(iv, 1, |packets| - 1);
    } else {
      FromBigEndianInverse(iv[4..]);
    }
  }

  // ---------------------------------------------------------------- the code

  class GcmCipher {
    const a: Aead
    const iv: array<byte>

    constructor (a: Aead, iv: IV)
      ensures this.a == a && fresh(this.iv) && this.iv.Length == 12 && this.iv[..] == iv
    {
      this.a := a;
      this.iv := new byte[12](i requires 0 <= i < 12 => iv[i]);
    }

    /** Writes a packet with padding from random. */
    method WritePacket(packet: Octets, random: Octets) returns (wire: Octets)
      requires |random| >= 20 && iv.Length == 12
      modifies iv
      ensures var sealed := Seal(a, old(iv[..]), packet, random[..Padding(|packet|, 4)]);
              wire == sealed.bytes && iv[..] == sealed.state
    {
      var padding := 16 - (1 + |packet|) % 16;
      if padding < 4 {
        padding := padding + 16;
      }
      var prefix := BigEndian(1 + |packet| + padding, 4);
      var buf := [padding] + packet + random[..padding];
      wire := prefix + a.seal(iv[..], prefix, buf);
      IncIV(iv);
    }

    /** Reads the packet at the front of the wire. */
    method ReadPacket(wire: Octets) returns (r: Opened)
      requires iv.Length == 12
      modifies iv
      ensures r == OpenWire(a, old(iv[..]), wire)
      ensures iv[..] == (if Opens(a, old(iv[..]), wire) then Later(old(iv[..]), 1) else old(iv[..]))
      ensures r.Took? ==> iv[..] == r.taken.state
    {
      if |wire| < 4 {
        return Refused;
      }
      var length := FromBigEndian(wire[..4]);
      if length > MAX_PACKET || |wire| < 4 + length + 16 {
        return Refused;
      }
      var plain := a.open(iv[..], wire[..4], wire[4..4 + length + 16]);
      if plain == None {
        return Refused;
      }
      IncIV(iv);
      var p := plain.value;
      if p == [] {
        return Panics;
      }
      var padding: nat := p[0];
      if padding < 4 || (padding + 1) % 256 >= |p| {
        return Refused;
      }
      var end := U32(|p| - padding);
      if end < 1 || |p| < end {
        return Panics;
      }
      r := Took(Taken(p[1..end], wire[4 + length + 16..], iv[..]));
    }
  }
}
