/** The framing of cbcCipher: cipher block chaining over the whole packet, then a MAC of the plain text. */
module CbcFraming {
  import opened Words
  import opened Bytes
  import opened Framing

  /** A block cipher in CBC mode, one block at a time: the arguments are the previous block and the text. */
  datatype Keys = Keys(enc: (Octets, Octets) -> Octets, dec: (Octets, Octets) -> Octets, block: nat,
                       mac: Option<(uint32, Octets) -> Octets>, size: nat)

  /** Blocks of 8 bytes (3DES) or 16 (AES), decryption undoes encryption, and all MACs have one size. */
  ghost predicate Lawful(k: Keys) {
    && (k.block == 8 || k.block == 16)
    && (forall iv, text {:trigger k.enc(iv, text)} ::
         |text| == k.block ==> |k.enc(iv, text)| == k.block && k.dec(iv, k.enc(iv, text)) == text)
    && (k.mac.Some? ==> forall n, m :: |k.mac.value(n, m)| == k.size)
    && (k.mac == None ==> k.size == 0)
  }

  /** Whole blocks are encrypted, each chained to the ciphertext before; the state is the last block. */
  function Encrypt(k: Keys, iv: Octets, text: Octets): Sealed<Octets>
    decreases |text|
  {
    if k.block == 0 || |text| < k.block then Sealed([], iv)
    else
      var first := k.enc(iv, text[..k.block]);
      var others := Encrypt(k, first, text[k.block..]);
      Sealed(first + others.bytes, others.state)
  }

  function Decrypt(k: Keys, iv: Octets, text: Octets): Sealed<Octets>
    decreases |text|
  {
    if k.block == 0 || |text| < k.block then Sealed([], iv)
    else
      var others := Decrypt(k, text[..k.block], text[k.block..]);
      Sealed(k.dec(iv, text[..k.block]) + others.bytes, others.state)
  }

  lemma {:induction false} DecryptEncrypt(k: Keys, iv: Octets, text: Octets)
    requires Lawful(k) && |text| % k.block == 0
    ensures var e := Encrypt(k, iv, text);
            |e.bytes| == |text| && Decrypt(k, iv, e.bytes) == Sealed(text, e.state)
    decreases |text|
  {
    if |text| >= k.block {
      var first := k.enc(iv, text[..k.block]);
      Shorter(|text|, k.block);
      DecryptEncrypt(k, first, text[k.block..]);
      var e := Encrypt(k, iv, text);
      assert e.bytes[..k.block] == first && e.bytes[k.block..] == Encrypt(k, first, text[k.block..]).bytes;
      assert text == text[..k.block] + text[k.block..];
    }
  }

  lemma Shorter(n: nat, m: nat)
    requires (m == 8 || m == 16) && n >= m
    ensures (n - m) % m == n % m
  {
  }

  /** The padding that writePacket arrives at by rounding up. */
  function CbcPadding(n: nat, block: nat): (k: nat)
    requires block == 8 || block == 16
    ensures 4 <= k < 4 + block && (5 + n + k) % block == 0
  {
    (9 + n + block - 1) / block * block - 5 - n
  }

  function Tag(k: Keys, n: uint32, plain: Octets): Octets {
    if k.mac == None then [] else k.mac.value(n, plain)
  }

  function Seal(k: Keys, iv: Octets, n: uint32, packet: Octets, pad: Octets): Sealed<Octets> {
    if |pad| >= 256 then Sealed([], iv)
    else
      var e := Encrypt(k, iv, Plain(packet, pad));
      Sealed(e.bytes + Tag(k, n, Plain(packet, pad)), e.state)
  }

  /** The checks on the first block, which holds the length and the amount of padding. */
  predicate Plausible(length: nat, padding: nat, block: nat)
    requires block == 8 || block == 16
  {
    length <= MAX_PACKET && length + 4 >= 16 && (length + 4) % block == 0 && padding >= 4 && length > padding + 1
  }

  /** Reads one packet, or refuses: the first block is decrypted before the length is known. */
  function Open(k: Keys, iv: Octets, n: uint32, wire: Octets): Option<Taken<Octets>>
    requires k.block == 8 || k.block == 16
  {
    if |wire| < k.block || |k.dec(iv, wire[..k.block])| != k.block then None
    else
      var first := k.dec(iv, wire[..k.block]);
      var length, padding: nat := FromBigEndian(first[..4]), first[4];
      if !Plausible(length, padding, k.block) || |wire| < 4 + length + k.size then None
      else OpenRest(k, n, first, wire, length, padding)
  }

  /** The rest of a packet whose first block is already decrypted. */
  function OpenRest(k: Keys, n: uint32, first: Octets, wire: Octets, length: nat, padding: nat): Option<Taken<Octets>>
    requires k.block <= 4 + length <= |wire| - k.size && padding + 1 <= length
  {
    var others := Decrypt(k, wire[..k.block], wire[k.block..4 + length]);
    var plain := first + others.bytes;
    if k.mac.Some? && k.mac.value(n, plain) != wire[4 + length..4 + length + k.size] then None
    else if |plain| != 4 + length then None
    else Some(Taken(plain[5..4 + length - padding], wire[4 + length + k.size..], others.state))
  }

  /** The reader's first block and the rest, decrypted one after the other, are the packet. */
  lemma FirstAndRest(k: Keys, iv: Octets, plain: Octets)
    requires Lawful(k) && |plain| % k.block == 0 && |plain| >= k.block
    ensures var e := Encrypt(k, iv, plain);
            && |e.bytes| == |plain| && k.dec(iv, e.bytes[..k.block]) == plain[..k.block]
            && Decrypt(k, e.bytes[..k.block], e.bytes[k.block..]) == Sealed(plain[k.block..], e.state)
  {
    var first := k.enc(iv, plain[..k.block]);
    Shorter(|plain|, k.block);
    DecryptEncrypt(k, first, plain[k.block..]);
    var e := Encrypt(k, iv, plain);
    assert e.bytes[..k.block] == first && e.bytes[k.block..] == Encrypt(k, first, plain[k.block..]).bytes;
  }

  /** What the reader makes of a packet at the front of the wire: the packet, unless it is empty or too long. */
  lemma PacketRoundTrip(k: Keys, iv: Octets, n: uint32, packet: Octets, pad: Octets, rest: Octets)
    requires Lawful(k) && |pad| == CbcPadding(|packet|, k.block) && 1 + |packet| + |pad| < 0x1_0000_0000
    ensures Open(k, iv, n, Seal(k, iv, n, packet, pad).bytes + rest) ==
            if Fits(packet, |pad|) then Some(Taken(packet, rest, Seal(k, iv, n, packet, pad).state)) else None
  {
    var plain := Plain(packet, pad);
    FirstAndRest(k, iv, plain);
    PlainParts(packet, pad);
    Prefixes(plain, k.block, |packet|);
    Reopened(k, iv, n, Encrypt(k, iv, plain), plain, Tag(k, n, plain), packet, |pad|, rest);
  }

  /** The same for any e that decrypts to the packet in the two steps of the reader. */
  lemma Prefixes(plain: Octets, block: nat, n: nat)
    requires 5 <= block <= |plain| && 5 + n <= |plain|
    ensures plain[..block][..4] == plain[..5][..4] && plain[5..5 + n] == plain[5..][..n]
  {
  }

  lemma Reopened(k: Keys, iv: Octets, n: uint32, e: Sealed<Octets>, plain: Octets, tag: Octets, packet: Octets,
      padding: nat, rest: Octets)
    requires (k.block == 8 || k.block == 16) && padding == CbcPadding(|packet|, k.block)
    requires k.block <= |plain| == |e.bytes| == 5 + |packet| + padding
             && k.dec(iv, e.bytes[..k.block]) == plain[..k.block]
    requires plain[5..5 + |packet|] == packet && FromBigEndian(plain[..k.block][..4]) == 1 + |packet| + padding
             && plain[4] == padding
    requires Decrypt(k, e.bytes[..k.block], e.bytes[k.block..]) == Sealed(plain[k.block..], e.state)
    requires |tag| == k.size && tag == Tag(k, n, plain)
    ensures Open(k, iv, n, e.bytes + tag + rest) == if Fits(packet, padding) then Some(Taken(packet, rest, e.state))
            else None
  {
    assert (e.bytes + tag + rest)[..k.block] == e.bytes[..k.block];
    PlausibleIff(packet, padding, k.block);
    if Fits(packet, padding) {
      RestRoundTrip(k, n, e, tag, plain, packet, padding, rest);
    }
  }

  lemma PlausibleIff(packet: Octets, padding: nat, block: nat)
    requires (block == 8 || block == 16) && padding == CbcPadding(|packet|, block)
    ensures Plausible(1 + |packet| + padding, padding, block) == Fits(packet, padding)
  {
    if block == 8 {
    } else {
    }
  }

  lemma RestRoundTrip(k: Keys, n: uint32, e: Sealed<Octets>, tag: Octets, plain: Octets, packet: Octets, padding: nat,
      rest: Octets)
    requires k.block <= |plain| == |e.bytes| == 5 + |packet| + padding && plain[5..5 + |packet|] == packet
    requires Decrypt(k, e.bytes[..k.block], e.bytes[k.block..]) == Sealed(plain[k.block..], e.state)
    requires |tag| == k.size && tag == Tag(k, n, plain)
    ensures OpenRest(k, n, plain[..k.block], e.bytes + tag + rest, 1 + |packet| + padding, padding) ==
            Some(Taken(packet, rest, e.state))
  {
    Slices(e.bytes, tag, rest, k.block);
    assert plain[..k.block] + plain[k.block..] == plain;
  }

  lemma Slices(body: Octets, tag: Octets, rest: Octets, b: nat)
    requires |body| >= b
    ensures var wire := body + tag + rest;
            && wire[..b] == body[..b] && wire[b..|body|] == body[b..]
            && wire[|body|..|body| + |tag|] == tag && wire[|body| + |tag|..] == rest
  {
  }

  /** The framing with everything that Framing proves about sequences of packets. */
  function CbcPackets(k: Keys): Framing<Octets>
    requires k.block == 8 || k.block == 16
  {
    Framing((iv, n, packet, pad) => Seal(k, iv, n, packet, pad), (iv, n, wire) => Open(k, iv, n, wire),
            length => CbcPadding(length, k.block))
  }

  lemma CbcIsFaithful(k: Keys)
    requires Lawful(k)
    ensures Faithful(CbcPackets(k))
  {
    forall iv, n, packet, pad: Octets, rest | |pad| == CbcPadding(|packet|, k.block) && Fits(packet, |pad|)
      ensures Open(k, iv, n, Seal(k, iv, n, packet, pad).bytes + rest) ==
              Some(Taken(packet, rest, Seal(k, iv, n, packet, pad).state))
    {
      PacketRoundTrip(k, iv, n, packet, pad, rest);
    }
  }

  // ---------------------------------------------------------------- the code

  class CbcCipher {
    const k: Keys
    /** The last block of ciphertext in this direction. */
    var chain: Octets

    constructor (k: Keys, iv: Octets)
      ensures this.k == k && chain == iv
    {
      this.k, chain := k, iv;
    }

    /** Writes a packet with padding from random: the MAC is taken before encryption in place. */
    method WritePacket(n: uint32, packet: Octets, random: Octets) returns (wire: Octets)
      requires (k.block == 8 || k.block == 16) && |random| >= 20
      modifies this
      ensures var sealed := Seal(k, old(chain), n, packet, random[..CbcPadding(|packet|, k.block)]);
              wire == sealed.bytes && chain == sealed.state
    {
      var effective := Max(8, k.block);
      var encLength := 5 + |packet| + 4;
      encLength := (encLength + effective - 1) / effective * effective;
      var length := encLength - 4;
      var paddingLength := length - (1 + |packet|);
      assert paddingLength == CbcPadding(|packet|, k.block);
      var plain := BigEndian(length, 4) + [paddingLength] + packet + random[..paddingLength];
      var tag := if k.mac.Some? then k.mac.value(n, plain) else [];
      var e := Encrypt(k, chain, plain);
      chain := e.state;
      wire := e.bytes + tag;
    }

    /** Reads the packet at the front of the wire. */
    method ReadPacket(n: uint32, wire: Octets) returns (packet: Option<Octets>, rest: Octets)
      requires k.block == 8 || k.block == 16
      modifies this
      ensures packet.Some? <==> Open(k, old(chain), n, wire).Some?
      ensures packet.Some? ==> Open(k, old(chain), n, wire).value == Taken(packet.value, rest, chain)
    {
      packet, rest := None, wire;
      if |wire| < k.block || |k.dec(chain, wire[..k.block])| != k.block {
        return;
      }
      var data := k.dec(chain, wire[..k.block]);
      chain := wire[..k.block];
      var length, paddingLength: nat := FromBigEndian(data[..4]), data[4];
      if length > MAX_PACKET || length + 4 < Max(16, k.block) || (length + 4) % Max(8, k.block) != 0 {
        return;
      }
      if paddingLength < 4 || length <= paddingLength + 1 || |wire| < 4 + length + k.size {
        return;
      }
      var macStart := 4 + length;
      var others := Decrypt(k, chain, wire[k.block..macStart]);
      chain, data := others.state, data + others.bytes;
      if k.mac.Some? && k.mac.value(n, data) != wire[macStart..macStart + k.size] {
        return;
      }
      if |data| != macStart {
        return;
      }
      packet, rest := Some(data[5..macStart - paddingLength]), wire[macStart + k.size..];
    }
  }
}
