/**
 * The packets of a channel as bytes: what channel.go writes and how the other side reads it. Channel has
 * the same packets as values.
 */
module ChannelPackets {
  import opened Words
  import opened Bytes
  import M = Messages
  import C = Channel

  const MSG_CONFIRM := 91
  const MSG_FAILURE := 92
  const MSG_ADJUST := 93
  const MSG_DATA := 94
  const MSG_EXTENDED := 95
  const MSG_EOF := 96
  const MSG_CLOSE := 97

  // ---------------------------------------------------------------- data packets

  datatype DataPacket = DataPacket(code: uint32, length: uint32, payload: seq<byte>)

  /** The bytes of a data packet: extended data carries its code. */
  function Encode(remoteId: uint32, d: DataPacket): seq<byte> {
    (if d.code > 0 then [MSG_EXTENDED] + BigEndian(remoteId, 4) + BigEndian(d.code, 4)
        else [MSG_DATA] + BigEndian(remoteId, 4))
    + BigEndian(d.length, 4) + d.payload
  }

  /** The fields of a data packet, if it has room for them. */
  function Decode(packet: seq<byte>): Option<DataPacket>
    requires packet != []
  {
    var header := if packet[0] == MSG_EXTENDED then 13 else 9;
    if |packet| < header then None
    else Some(DataPacket(if header == 13 then U32(FromBigEndian(packet[5..9])) else 0,
                         U32(FromBigEndian(packet[header - 4..header])), packet[header..]))
  }

  /** The other side reads from a data packet what was put in. */
  lemma DecodeEncode(remoteId: uint32, d: DataPacket)
    ensures Decode(Encode(remoteId, d)) == Some(d)
  {
    FourBytesBack(d.code);
    FourBytesBack(d.length);
    if d.code > 0 {
      DecodeExtended(BigEndian(remoteId, 4), BigEndian(d.code, 4), BigEndian(d.length, 4), d);
    } else {
      DecodePlain(BigEndian(remoteId, 4), BigEndian(d.length, 4), d);
    }
  }

  lemma DecodeExtended(id: seq<byte>, code: seq<byte>, length: seq<byte>, d: DataPacket)
    requires |id| == |code| == |length| == 4 && FromBigEndian(code) == d.code && FromBigEndian(length) == d.length
    ensures Decode([MSG_EXTENDED] + id + code + length + d.payload) == Some(d)
  {
    var p := [MSG_EXTENDED] + id + code + length + d.payload;
    ExtendedParts([MSG_EXTENDED] + id, code, length, d.payload);
  }

  lemma ExtendedParts(front: seq<byte>, code: seq<byte>, length: seq<byte>, payload: seq<byte>)
    requires |front| == 5 && |code| == |length| == 4
    ensures var p := front + code + length + payload; p[5..9] == code && p[9..13] == length && p[13..] == payload
  {
  }

  lemma DecodePlain(id: seq<byte>, length: seq<byte>, d: DataPacket)
    requires |id| == |length| == 4 && d.code == 0 && FromBigEndian(length) == d.length
    ensures Decode([MSG_DATA] + id + length + d.payload) == Some(d)
  {
    var p := [MSG_DATA] + id + length + d.payload;
    assert p[5..9] == length;
    assert p[9..] == d.payload;
  }

  /** The payloads of data packets, one after the other. */
  function Payloads(ds: seq<DataPacket>): seq<byte> {
    if ds == [] then [] else Payloads(ds[..|ds| - 1]) + ds[|ds| - 1].payload
  }

  function EncodeAll(remoteId: uint32, ds: seq<DataPacket>): seq<seq<byte>> {
    seq(|ds|, i requires 0 <= i < |ds| => Encode(remoteId, ds[i]))
  }

  /** Packets as a channel may send them: none empty or larger than the peer allows, and each says its length. */
  predicate Sendable(ds: seq<DataPacket>, code: uint32, most: uint32) {
    forall i :: 0 <= i < |ds| ==> ds[i].code == code && 0 < |ds[i].payload| == ds[i].length <= most
  }


  /** The channel number that onePacket takes from a packet. */
  function Recipient(packet: seq<byte>): nat
    requires |packet| >= 5
  {
    FromBigEndian(packet[1..5])
  }

  /** Data packets byte by byte: which kind, whose channel, which code, how many bytes and which. */
  lemma DataLayout(remoteId: uint32, d: DataPacket)
    ensures var p, h := Encode(remoteId, d), if d.code == 0 then 9 else 13;
            && |p| == h + |d.payload| && Recipient(p) == remoteId
            && p[0] == (if d.code == 0 then 94 else 95)
            && (d.code != 0 ==> FromBigEndian(p[5..9]) == d.code)
            && FromBigEndian(p[h - 4..h]) == d.length && p[h..] == d.payload
  {
    var p := Encode(remoteId, d);
    FourBytesBack(remoteId);
    FourBytesBack(d.code);
    FourBytesBack(d.length);
    assert p[1..5] == BigEndian(remoteId, 4);
    if d.code == 0 {
      assert p[5..9] == BigEndian(d.length, 4);
    } else {
      assert p[5..9] == BigEndian(d.code, 4) && p[9..13] == BigEndian(d.length, 4);
    }
  }

  // ---------------------------------------------------------------- all packets of a channel

  /** What a channel sends of the packets that Channel has, from its own number to that of the other side. */
  function Encoded(remoteId: uint32, localId: uint32, p: C.Packet): seq<byte>
    requires !p.Request? && !p.Malformed?
  {
    match p
    case Data(code, length, payload) => Encode(remoteId, DataPacket(code, length, payload))
    case Adjust(n) => [MSG_ADJUST] + BigEndian(remoteId, 4) + BigEndian(n, 4)
    case Confirm(window, most) =>
      [MSG_CONFIRM] + BigEndian(remoteId, 4) + BigEndian(localId, 4) + BigEndian(window, 4) + BigEndian(most, 4)
    case Eof => [MSG_EOF] + BigEndian(remoteId, 4)
    case Close => [MSG_CLOSE] + BigEndian(remoteId, 4)
  }

  /** Packets as they go to the wire, one after the other. */
  function Sends(remoteId: uint32, localId: uint32, ps: seq<C.Packet>): seq<seq<byte>>
    requires forall p <- ps :: !p.Request? && !p.Malformed?
  {
    seq(|ps|, i requires 0 <= i < |ps| => Encoded(remoteId, localId, ps[i]))
  }

  /** The number that the other side of a new channel gives for itself. */
  function Sender(packet: seq<byte>): uint32
    requires |packet| >= 17
  {
    U32(FromBigEndian(packet[5..9]))
  }

  /**
   * What handlePacket makes of a packet, apart from OPEN_FAILURE. EOF and CLOSE are not parsed. Requests and
   * answers to them go to a consumer that is not part of a channel's state; whether they can be read is given.
   */
  function Parsed(packet: seq<byte>, readable: bool): C.Packet
    requires packet != [] && |packet| < 0x1_0000_0000
  {
    if packet[0] == MSG_DATA || packet[0] == MSG_EXTENDED then
      match Decode(packet)
      case None => C.Malformed
      case Some(d) => C.Data(d.code, d.length, d.payload)
    else if packet[0] == MSG_CLOSE then C.Close
    else if packet[0] == MSG_EOF then C.Eof
    else if packet[0] == MSG_ADJUST then
      if |packet| == 9 then C.Adjust(U32(FromBigEndian(packet[5..9]))) else C.Malformed
    else if packet[0] == MSG_CONFIRM then
      if |packet| >= 17 then C.Confirm(U32(FromBigEndian(packet[9..13])), U32(FromBigEndian(packet[13..17])))
      else C.Malformed
    else if readable then C.Request
    else C.Malformed
  }

  /** The number of a packet's kind in section 9 of RFC 4254. */
  function KindNumber(p: C.Packet): nat
    requires !p.Request? && !p.Malformed?
  {
    match p
    case Data(code, _, _) => if code == 0 then 94 else 95
    case Adjust(_) => 93
    case Confirm(_, _) => 91
    case Eof => 96
    case Close => 97
  }

  /** The bytes say what packet it is and whose, and the other side reads from them what was put in. */
  predicate Conveys(b: seq<byte>, remoteId: uint32, localId: uint32, p: C.Packet, readable: bool)
    requires !p.Request? && !p.Malformed?
  {
    && 5 <= |b| < 0x1_0000_0000 && b[0] == KindNumber(p) && Recipient(b) == remoteId && Parsed(b, readable) == p
    && (p.Confirm? ==> |b| == 17 && Sender(b) == localId)
  }

  lemma ParsedEncoded(remoteId: uint32, localId: uint32, p: C.Packet, readable: bool)
    requires !p.Request? && !p.Malformed? && |Encoded(remoteId, localId, p)| < 0x1_0000_0000
    ensures Conveys(Encoded(remoteId, localId, p), remoteId, localId, p, readable)
  {
    if p.Data? {
      ParsedData(remoteId, localId, p, readable);
    } else if p.Adjust? {
      ParsedAdjust(remoteId, localId, p.n, readable);
    } else if p.Confirm? {
      ParsedConfirm(remoteId, localId, p.window, p.maxPacket, readable);
    } else {
      ShortLayout(remoteId, Encoded(remoteId, localId, p));
    }
  }

  lemma ParsedAdjust(remoteId: uint32, localId: uint32, n: uint32, readable: bool)
    ensures Conveys(Encoded(remoteId, localId, C.Adjust(n)), remoteId, localId, C.Adjust(n), readable)
  {
    AdjustLayout(remoteId, n);
  }

  lemma ParsedConfirm(remoteId: uint32, localId: uint32, window: uint32, most: uint32, readable: bool)
    ensures Conveys(Encoded(remoteId, localId, C.Confirm(window, most)), remoteId, localId, C.Confirm(window, most),
                    readable)
  {
    ConfirmLayout(remoteId, localId, window, most, Encoded(remoteId, localId, C.Confirm(window, most)));
  }

  lemma ParsedData(remoteId: uint32, localId: uint32, p: C.Packet, readable: bool)
    requires p.Data? && |Encoded(remoteId, localId, p)| < 0x1_0000_0000
    ensures Conveys(Encoded(remoteId, localId, p), remoteId, localId, p, readable)
  {
    var d := DataPacket(p.code, p.length, p.payload);
    DataLayout(remoteId, d);
    DecodeEncode(remoteId, d);
  }

  lemma ShortLayout(remoteId: uint32, b: seq<byte>)
    requires |b| == 5 && b == [b[0]] + BigEndian(remoteId, 4)
    ensures Recipient(b) == remoteId
  {
    FourBytesBack(remoteId);
    assert b[1..5] == BigEndian(remoteId, 4);
  }

  lemma AdjustLayout(remoteId: uint32, n: uint32)
    ensures var b := [MSG_ADJUST] + BigEndian(remoteId, 4) + BigEndian(n, 4);
            |b| == 9 && FromBigEndian(b[1..5]) == remoteId && FromBigEndian(b[5..9]) == n
  {
    FourBytesBack(remoteId);
    FourBytesBack(n);
    var b := [MSG_ADJUST] + BigEndian(remoteId, 4) + BigEndian(n, 4);
    assert b[1..5] == BigEndian(remoteId, 4) && b[5..9] == BigEndian(n, 4);
  }

  lemma ConfirmLayout(remoteId: uint32, localId: uint32, window: uint32, most: uint32, b: seq<byte>)
    requires b == [MSG_CONFIRM] + BigEndian(remoteId, 4) + BigEndian(localId, 4) + BigEndian(window, 4)
                  + BigEndian(most, 4)
    ensures |b| == 17 && FromBigEndian(b[1..5]) == remoteId && FromBigEndian(b[5..9]) == localId
            && FromBigEndian(b[9..13]) == window && FromBigEndian(b[13..17]) == most
  {
    var i, j, k, l := BigEndian(remoteId, 4), BigEndian(localId, 4), BigEndian(window, 4), BigEndian(most, 4);
    FourBytesBack(remoteId);
    FourBytesBack(localId);
    FourBytesBack(window);
    FourBytesBack(most);
    FourParts([MSG_CONFIRM], i, j, k, l, b);
  }

  lemma FourParts(x: seq<byte>, a: seq<byte>, b: seq<byte>, c: seq<byte>, d: seq<byte>, p: seq<byte>)
    requires |x| == 1 && |a| == |b| == |c| == |d| == 4 && p == x + a + b + c + d
    ensures |p| == 17 && p[1..5] == a && p[5..9] == b && p[9..13] == c && p[13..17] == d
  {
  }

  /** The messages that sendMessage marshals, field by field. */
  lemma EncodedByCodec(remoteId: uint32, localId: uint32, p: C.Packet)
    requires p.Adjust? || p.Confirm? || p.Eof? || p.Close?
    ensures Encoded(remoteId, localId, p) ==
            match p
            case Adjust(n) => M.Marshal([93], [M.Word(remoteId), M.Word(n)])
            case Confirm(window, most) =>
              M.Marshal([91], [M.Word(remoteId), M.Word(localId), M.Word(window), M.Word(most), M.Tail([])])
            case Eof => M.Marshal([96], [M.Word(remoteId)])
            case _ => M.Marshal([97], [M.Word(remoteId)])
  {
    match p {
      case Adjust(n) => TwoWords(remoteId, n);
      case Confirm(window, most) => FourWords(remoteId, localId, window, most);
      case _ => OneWord(remoteId);
    }
  }

  lemma OneWord(a: uint32)
    ensures M.PutAll([M.Word(a)]) == BigEndian(a, 4)
  {
    PutAllStep(M.Word(a), []);
  }

  lemma TwoWords(a: uint32, b: uint32)
    ensures M.PutAll([M.Word(a), M.Word(b)]) == BigEndian(a, 4) + BigEndian(b, 4)
  {
    PutAllStep(M.Word(a), [M.Word(b)]);
    OneWord(b);
  }

  lemma FourWords(a: uint32, b: uint32, c: uint32, d: uint32)
    ensures M.PutAll([M.Word(a), M.Word(b), M.Word(c), M.Word(d), M.Tail([])]) ==
            BigEndian(a, 4) + BigEndian(b, 4) + BigEndian(c, 4) + BigEndian(d, 4)
  {
    PutAllStep(M.Word(a), [M.Word(b), M.Word(c), M.Word(d), M.Tail([])]);
    PutAllStep(M.Word(b), [M.Word(c), M.Word(d), M.Tail([])]);
    PutAllStep(M.Word(c), [M.Word(d), M.Tail([])]);
    PutAllStep(M.Word(d), [M.Tail([])]);
    PutAllStep(M.Tail([]), []);
    Joined(BigEndian(a, 4), BigEndian(b, 4), BigEndian(c, 4), BigEndian(d, 4));
  }

  lemma Joined(a: seq<byte>, b: seq<byte>, c: seq<byte>, d: seq<byte>)
    ensures a + (b + (c + (d + ([] + [])))) == a + b + c + d
  {
  }

  lemma PutAllStep(v: M.Value, vs: seq<M.Value>)
    ensures M.PutAll([v] + vs) == M.Put(v) + M.PutAll(vs)
  {
    assert ([v] + vs)[1..] == vs;
  }
}
