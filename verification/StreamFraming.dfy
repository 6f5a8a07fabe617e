/** The framing of streamPacketCipher: a key stream over everything, or over all but the length. */
module StreamFraming {
  import opened Words
  import opened Bytes
  import opened Framing

  /**
   * A stream cipher mixes byte i of its stream with the key byte of that position; a MAC takes the
   * sequence number and the packet to size bytes. With etm the MAC covers the ciphertext.
   */
  datatype Keys = Keys(mix: (nat, byte) -> byte, mac: Option<(uint32, Octets) -> Octets>, size: nat, etm: bool)

  /** Mixing twice at one position gives the byte back, and all MACs have the same size. */
  ghost predicate Lawful(k: Keys) {
    && (forall i, b :: k.mix(i, k.mix(i, b)) == b)
    && (k.mac.Some? ==> forall n, m :: |k.mac.value(n, m)| == k.size)
    && (k.mac == None ==> k.size == 0)
  }

  /** The number of bytes that stay in the clear. */
  function Clear(k: Keys): nat {
    if k.mac.Some? && k.etm then 4 else 0
  }

  function Mix(k: Keys, pos: nat, s: Octets): (r: Octets)
    ensures |r| == |s|
  {
    seq(|s|, i requires 0 <= i < |s| => k.mix(pos + i, s[i]))
  }

  /** The tag of a packet, given it before and after encryption. */
  function Tag(k: Keys, n: uint32, plain: Octets, sealed: Octets): Octets {
    if k.mac == None then [] else k.mac.value(n, if k.etm then sealed else plain)
  }

  function Seal(k: Keys, pos: nat, n: uint32, packet: Octets, pad: Octets): Sealed<nat> {
    if |pad| >= 256 then Sealed([], pos)
    else
      var plain := Plain(packet, pad);
      var body := plain[..Clear(k)] + Mix(k, pos, plain[Clear(k)..]);
      Sealed(body + Tag(k, n, plain, body), pos + |plain| - Clear(k))
  }

  /** Reads one packet, or refuses; the checks are those of the code, in its order. */
  function Open(k: Keys, pos: nat, n: uint32, wire: Octets): Option<Taken<nat>> {
    if |wire| < 5 then None
    else
      var c := Clear(k);
      var prefix := wire[..c] + Mix(k, pos, wire[c..5]);
      var length := FromBigEndian(prefix[..4]);
      var padding: nat := prefix[4];
      if length <= padding + 1 || length > MAX_PACKET || |wire| < 4 + length + k.size then None
      else
        var data := Mix(k, pos + 5 - c, wire[5..4 + length]);
        var tag := wire[4 + length..4 + length + k.size];
        if k.mac.Some? && k.mac.value(n, if k.etm then wire[..4 + length] else prefix + data) != tag then None
        else Some(Taken(data[..length - padding - 1], wire[4 + length + k.size..], pos + 4 + length - c))
  }

  lemma MixTwice(k: Keys, pos: nat, s: Octets)
    requires Lawful(k)
    ensures Mix(k, pos, Mix(k, pos, s)) == s
  {
  }

  lemma MixJoin(k: Keys, pos: nat, s: Octets, t: Octets)
    ensures Mix(k, pos, s + t) == Mix(k, pos, s) + Mix(k, pos + |s|, t)
  {
  }

  /** Decrypting the first five bytes and the rest one after the other decrypts the packet. */
  lemma Decrypted(k: Keys, pos: nat, plain: Octets)
    requires Lawful(k) && |plain| >= 5
    ensures var c := Clear(k);
            var body := plain[..c] + Mix(k, pos, plain[c..]);
            body[..c] + Mix(k, pos, body[c..5]) == plain[..5] && Mix(k, pos + 5 - c, body[5..]) == plain[5..]
  {
    var c := Clear(k);
    BodyParts(k, pos, plain);
    MixTwice(k, pos, plain[c..5]);
    MixTwice(k, pos + 5 - c, plain[5..]);
  }

  lemma BodyParts(k: Keys, pos: nat, plain: Octets)
    requires |plain| >= 5
    ensures var c := Clear(k);
            var body := plain[..c] + Mix(k, pos, plain[c..]);
            body[..c] == plain[..c] && body[c..5] == Mix(k, pos, plain[c..5])
                && body[5..] == Mix(k, pos + 5 - c, plain[5..])
  {
    var c := Clear(k);
    assert plain[c..] == plain[c..5] + plain[5..];
    MixJoin(k, pos, plain[c..5], plain[5..]);
  }

  /** Encrypting the prefix, the packet and the padding one after the other encrypts all of it. */
  lemma Encrypted(k: Keys, pos: nat, plain: Octets, packet: Octets, padding: Octets)
    requires |plain| == 5 + |packet| + |padding| && plain[5..] == packet + padding
    ensures var c := Clear(k);
            plain[..c] + Mix(k, pos, plain[c..]) ==
            plain[..c] + Mix(k, pos, plain[c..5]) + Mix(k, pos + 5 - c, packet)
                + Mix(k, pos + 5 - c + |packet|, padding)
  {
    var c := Clear(k);
    MixJoin(k, pos + 5 - c, packet, padding);
    MixJoin(k, pos, plain[c..5], packet + padding);
    assert plain[c..] == plain[c..5] + (packet + padding);
  }

  /** What the reader makes of a packet at the front of the wire: the packet, unless it is empty or too long. */
  lemma PacketRoundTrip(k: Keys, pos: nat, n: uint32, packet: Octets, pad: Octets, rest: Octets)
    requires Lawful(k) && |pad| < 256 && 1 + |packet| + |pad| < 0x1_0000_0000
    ensures Open(k, pos, n, Seal(k, pos, n, packet, pad).bytes + rest) ==
            if Fits(packet, |pad|) then Some(Taken(packet, rest, Seal(k, pos, n, packet, pad).state)) else None
  {
    var c := Clear(k);
    var plain := Plain(packet, pad);
    var body := plain[..c] + Mix(k, pos, plain[c..]);
    var tag := Tag(k, n, plain, body);
    Decrypted(k, pos, plain);
    PlainParts(packet, pad);
    Slices(body, tag, rest, c);
  }

  lemma Slices(body: Octets, tag: Octets, rest: Octets, c: nat)
    requires |body| >= 5 >= c
    ensures var wire := body + tag + rest;
            && wire[..c] == body[..c] && wire[c..5] == body[c..5] && wire[5..|body|] == body[5..]
                && wire[..|body|] == body
            && wire[|body|..|body| + |tag|] == tag && wire[|body| + |tag|..] == rest
  {
  }

  /** The framing with everything that Framing proves about sequences of packets. */
  function StreamPackets(k: Keys): Framing<nat> {
    Framing((pos, n, packet, pad) => Seal(k, pos, n, packet, pad), (pos, n, wire) => Open(k, pos, n, wire),
            length => Padding(length, Clear(k)))
  }

  lemma StreamIsFaithful(k: Keys)
    requires Lawful(k)
    ensures Faithful(StreamPackets(k))
  {
    forall pos: nat, n, packet, pad: Octets, rest | |pad| == Padding(|packet|, Clear(k)) && Fits(packet, |pad|)
      ensures Open(k, pos, n, Seal(k, pos, n, packet, pad).bytes + rest) ==
              Some(Taken(packet, rest, Seal(k, pos, n, packet, pad).state))
    {
      PacketRoundTrip(k, pos, n, packet, pad, rest);
    }
  }

  // ---------------------------------------------------------------- the code

  class StreamPacketCipher {
    const k: Keys
    /** How far the key stream has been used. */
    var pos: nat

    constructor (k: Keys)
      ensures this.k == k && pos == 0
    {
      this.k, pos := k, 0;
    }

    method XorKeyStream(s: Octets) returns (r: Octets)
      modifies this
      ensures r == Mix(k, old(pos), s) && pos == old(pos) + |s|
    {
      r := Mix(k, pos, s);
      pos := pos + |s|;
    }

    /** Writes a packet with padding from random; only a packet beyond maxPacket is refused. */
    method WritePacket(n: uint32, packet: Octets, random: Octets) returns (wire: Option<Octets>)
      requires |random| >= 20
      modifies this
      ensures |packet| > MAX_PACKET ==> wire == None && pos == old(pos)
      ensures |packet| <= MAX_PACKET ==>
                var sealed := Seal(k, old(pos), n, packet, random[..Padding(|packet|, Clear(k))]);
                wire == Some(sealed.bytes) && pos == sealed.state
    {
      if |packet| > MAX_PACKET {
        return None;
      }
      var aadlen := if k.mac.Some? && k.etm then 4 else 0;
      var paddingLength := 16 - (5 + |packet| - aadlen) % 16;
      if paddingLength < 4 {
        paddingLength := paddingLength + 16;
      }
      var padding := random[..paddingLength];
      var prefix := BigEndian(1 + |packet| + paddingLength, 4) + [paddingLength];
      ghost var plain := Plain(packet, padding);
      assert plain == prefix + packet + padding;
      var body := Encrypt(prefix, packet, padding);
      var tag := [];
      if k.mac.Some? {
        tag := k.mac.value(n, if k.etm then body else prefix + packet + padding);
      }
      assert tag == Tag(k, n, plain, body);
      wire := Some(body + tag);
    }

    /** The key stream over the three parts of a packet, leaving the length alone with EtM. */
    method Encrypt(prefix: Octets, packet: Octets, padding: Octets) returns (body: Octets)
      requires |prefix| == 5
      modifies this
      ensures var plain := prefix + packet + padding;
              body == plain[..Clear(k)] + Mix(k, old(pos), plain[Clear(k)..]) && pos == old(pos) + |plain| - Clear(k)
    {
      ghost var plain := prefix + packet + padding;
      assert plain[5..] == packet + padding && plain[..4] == prefix[..4] && plain[4..5] == prefix[4..5]
             && plain[0..5] == prefix;
      if k.mac.Some? && k.etm {
        body := XorKeyStream(prefix[4..5]);
        body := prefix[..4] + body;
      } else {
        body := XorKeyStream(prefix);
      }
      var data := XorKeyStream(packet);
      var filler := XorKeyStream(padding);
      Encrypted(k, old(pos), plain, packet, padding);
      body := body + data + filler;
    }

    /** The first five bytes; the length is in the clear under encrypt-then-MAC. */
    method ReadPrefix(wire: Octets) returns (prefix: Octets)
      requires |wire| >= 5
      modifies this
      ensures prefix == wire[..Clear(k)] + Mix(k, old(pos), wire[Clear(k)..5]) && pos == old(pos) + 5 - Clear(k)
    {
      if k.mac.Some? && k.etm {
        prefix := XorKeyStream(wire[4..5]);
        prefix := wire[..4] + prefix;
      } else {
        assert wire[0..5] == wire[..5];
        prefix := XorKeyStream(wire[..5]);
      }
    }

    /** Reads the packet at the front of the wire. */
    method ReadPacket(n: uint32, wire: Octets) returns (packet: Option<Octets>, rest: Octets)
      modifies this
      ensures packet.Some? <==> Open(k, old(pos), n, wire).Some?
      ensures packet.Some? ==> Open(k, old(pos), n, wire).value == Taken(packet.value, rest, pos)
    {
      packet, rest := None, wire;
      if |wire| < 5 {
        return;
      }
      var prefix := ReadPrefix(wire);
      var length := FromBigEndian(prefix[..4]);
      var paddingLength: nat := prefix[4];
      if length <= paddingLength + 1 || length > MAX_PACKET || |wire| < 4 + length + k.size {
        return;
      }
      var tag := wire[4 + length..4 + length + k.size];
      var data := XorKeyStream(wire[5..4 + length]);
      if k.mac.Some? {
        var macInput;
        if k.etm {
          macInput := wire[..4] + wire[4..5] + wire[5..4 + length];
          assert macInput == wire[..4 + length];
        } else {
          macInput := prefix + data;
        }
        if k.mac.value(n, macInput) != tag {
          return;
        }
      }
      packet, rest := Some(data[..length - paddingLength - 1]), wire[4 + length + k.size..];
    }
  }
}
