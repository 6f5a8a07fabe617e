/**
 * What the three packet framings of cipher.go have in common: padding, the packet length limit, and
 * how a whole sequence of packets travels once a single packet does.
 */
module Framing {
  import opened Words
  import opened Bytes
  import opened Division

  const MAX_PACKET := 0x4_0000

  /** A packet of n bytes with k bytes of padding takes a whole number of blocks, not counting aad bytes. */
  predicate Whole(n: nat, aad: nat, k: nat) {
    (5 + n + k - aad) % 16 == 0
  }

  /** Packets are padded to a multiple of 16 with at least 4 bytes, and no more than needed. */
  function Padding(n: nat, aad: nat): (k: nat)
    requires aad <= 5
    ensures 4 <= k < 20 && Whole(n, aad, k)
    ensures forall j :: 4 <= j < k ==> !Whole(n, aad, j)
  {
    var k := 16 - (5 + n - aad) % 16;
    if k < 4 then k + 16 else k
  }

  /** A packet that the reader of every framing accepts when padded by k bytes. */
  predicate Fits(packet: Octets, k: nat) {
    packet != [] && 1 + |packet| + k <= MAX_PACKET
  }

  /** A packet before encryption: its length, the amount of padding, and both. */
  function Plain(packet: Octets, pad: Octets): (r: Octets)
    requires |pad| < 256
    ensures |r| == 5 + |packet| + |pad|
  {
    BigEndian(1 + |packet| + |pad|, 4) + [|pad|] + packet + pad
  }

  lemma PlainParts(packet: Octets, pad: Octets)
    requires |pad| < 256 && 1 + |packet| + |pad| < 0x1_0000_0000
    ensures var plain := Plain(packet, pad);
            && FromBigEndian(plain[..5][..4]) == 1 + |packet| + |pad| && plain[..5][4] == |pad|
            && plain[5..] == packet + pad && plain[5..][..|packet|] == packet && plain[..5] + plain[5..] == plain
  {
    var plain, length := Plain(packet, pad), 1 + |packet| + |pad|;
    assert plain[..5][..4] == BigEndian(length, 4);
    Powers();
    BigEndianInverse(length, 4);
    UniqueRemainder(length, 0x1_0000_0000, 0, length);
  }

  /** One packet taken off the wire: the packet, the bytes behind it and the cipher state after it. */
  datatype Taken<+S> = Taken(packet: Octets, rest: Octets, state: S)

  /** A packet on its way: the bytes on the wire and the cipher state after writing them. */
  datatype Sealed<+S> = Sealed(bytes: Octets, state: S)

  /** A framing: how a packet with its padding is written and how the next one is read. */
  datatype Framing<!S> = Framing(
    seal: (S, uint32, Octets, Octets) -> Sealed<S>,
    open: (S, uint32, Octets) -> Option<Taken<S>>,
    padding: nat -> nat)

  /** What a packet that fits becomes when its own bytes are at the front of the wire. */
  ghost predicate Faithful<S(!new)>(f: Framing<S>) {
    forall s, n, packet, pad, rest {:trigger f.open(s, n, f.seal(s, n, packet, pad).bytes + rest)} ::
      |pad| == f.padding(|packet|) && Fits(packet, |pad|) ==>
        f.open(s, n, f.seal(s, n, packet, pad).bytes + rest) ==
        Some(Taken(packet, rest, f.seal(s, n, packet, pad).state))
  }

  /** The wire after writing the packets in order, from state s and sequence number n on. */
  function WriteAll<S>(f: Framing<S>, s: S, n: uint32, packets: seq<Octets>, pads: seq<Octets>): Sealed<S>
    requires |pads| == |packets|
    decreases |packets|
  {
    if packets == [] then Sealed([], s)
    else
      var first := f.seal(s, n, packets[0], pads[0]);
      var others := WriteAll(f, first.state, U32(n + 1), packets[1..], pads[1..]);
      Sealed(first.bytes + others.bytes, others.state)
  }

  /** The next count packets of the wire. */
  function ReadAll<S>(f: Framing<S>, s: S, n: uint32, wire: Octets, count: nat): Option<(seq<Octets>, Octets, S)>
    decreases count
  {
    if count == 0 then Some(([], wire, s))
    else
      match f.open(s, n, wire)
      case None => None
      case Some(t) =>
        match ReadAll(f, t.state, U32(n + 1), t.rest, count - 1)
        case None => None
        case Some(r) => Some(([t.packet] + r.0, r.1, r.2))
  }

  /** Reading back what was written gives the same packets and leaves both ciphers in the same state. */
  lemma {:induction false} SequenceRoundTrip<S(!new)>(f: Framing<S>, s: S, n: uint32, packets: seq<Octets>,
      pads: seq<Octets>, rest: Octets)
    requires Faithful(f) && |pads| == |packets|
    requires forall i :: 0 <= i < |packets| ==> |pads[i]| == f.padding(|packets[i]|) && Fits(packets[i], |pads[i]|)
    ensures var w := WriteAll(f, s, n, packets, pads);
            ReadAll(f, s, n, w.bytes + rest, |packets|) == Some((packets, rest, w.state))
    decreases |packets|
  {
    if packets != [] {
      var first := f.seal(s, n, packets[0], pads[0]);
      var others := WriteAll(f, first.state, U32(n + 1), packets[1..], pads[1..]);
      SequenceRoundTrip(f, first.state, U32(n + 1), packets[1..], pads[1..], rest);
      assert first.bytes + others.bytes + rest == first.bytes + (others.bytes + rest);
      assert f.open(s, n, first.bytes + (others.bytes + rest)).Some?;
      assert packets == [packets[0]] + packets[1..];
    } else {
      assert [] + rest == rest;
    }
  }
}
