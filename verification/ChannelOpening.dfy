/** How a channel comes about: opening in mux.go, Accept and the confirmation in channel.go. */
module ChannelOpening {
  import opened Words
  import opened SendWindow
  import opened ChannelPackets
  import opened ChannelObject
  import C = Channel

  /** The confirmation that Accept sends. */
  const CONFIRM: C.Packet := C.Confirm(0x20_0000, 0x8000)

  /** The side that was asked: it takes what the open message of openChannel says, and accepts. */
  method Asked(peersId: uint32, localId: uint32) returns (b: Channel)
    ensures fresh(b) && b.Valid() && b.localId == localId && b.remoteId == peersId
    ensures b.wire == [Encoded(peersId, localId, CONFIRM)]
    ensures b.Here() == C.Act(C.Opened([], true), C.Accept)
  {
    b := new Channel(false, localId);
    b.TakeOpen(peersId, 0x20_0000, 0x8000);
    OneSent(peersId, localId, CONFIRM);
    assert b.Here() == C.Opened([], true);
    var _ := b.Accept();
  }

  /** The side that asked, when the answer has come. */
  method Told(localId: uint32, packet: seq<byte>) returns (a: Channel)
    requires 17 <= |packet| < 0x1_0000_0000 && packet[0] == MSG_CONFIRM && Parsed(packet, true) == CONFIRM
    ensures fresh(a) && a.Valid() && a.localId == localId && a.remoteId == Sender(packet) && a.wire == []
    ensures C.Handle(C.Opened([], false), CONFIRM).Effect? && a.Here() == C.Handle(C.Opened([], false), CONFIRM).e
  {
    a := new Channel(true, localId);
    var _ := a.HandleConfirm(packet);
  }

  /**
   * The confirmation is addressed to the side that asked. Afterwards each side has the other's number, and
   * both ends are what Channel makes of the same steps.
   */
  method Introduce(i: uint32, j: uint32) returns (a: Channel, b: Channel, packet: seq<byte>)
    ensures a.Valid() && b.Valid() && a.localId == b.remoteId == i && b.localId == a.remoteId == j
    ensures |packet| >= 5 && Recipient(packet) == a.localId && b.wire == [packet]
    ensures C.Out(C.Opened([], true), C.Accept) == [CONFIRM] && b.Here() == C.Act(C.Opened([], true), C.Accept)
    ensures C.Handle(C.Opened([], false), CONFIRM).Effect? && a.Here() == C.Handle(C.Opened([], false), CONFIRM).e
  {
    ParsedEncoded(i, j, CONFIRM, true);
    b := Asked(i, j);
    packet := b.wire[0];
    a := Told(i, packet);
  }
}
