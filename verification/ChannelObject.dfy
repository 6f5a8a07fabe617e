/**
 * The channel object of channel.go with the packets it writes and reads as bytes: the fields it keeps,
 * its two receive buffers and its send window. Channel has the same steps on values, for all the ways
 * in which they can interleave.
 */
module ChannelObject {
  import opened Words
  import opened Bytes
  import opened SendWindow
  import opened ReceiveBuffer
  import opened ChannelPackets
  import C = Channel

  function Sum(grants: seq<uint32>): nat {
    if grants == [] then 0 else Sum(grants[..|grants| - 1]) + grants[|grants| - 1]
  }

  lemma {:induction false} SumNext(grants: seq<uint32>, i: nat)
    requires i < |grants|
    ensures Sum(grants[..i + 1]) == Sum(grants[..i]) + grants[i] <= Sum(grants)
  {
    assert grants[..i + 1][..i] == grants[..i];
    if i + 1 == |grants| {
      assert grants[..i + 1] == grants;
    } else {
      var n := |grants| - 1;
      SumNext(grants[..n], i);
      assert grants[..n][..i + 1] == grants[..i + 1] && grants[..n][..i] == grants[..i];
    }
  }

  class Channel {
    const pending: Buffer
    const extPending: Buffer
    const remoteWin: Window
    const inbound: bool
    const localId: uint32
    var decided: bool
    /** Whether the table of the connection still has the channel. */
    var listed: bool
    var myWindow: uint32
    var maxIncomingPayload: uint32
    var maxRemotePayload: uint32
    var remoteId: uint32
    var sentClose: bool
    var sentEOF: bool
    /** What has been handed to the connection. */
    var wire: seq<seq<byte>>

    ghost predicate Valid()
      reads this, pending, extPending, pending.spine, extPending.spine
    {
      pending.Valid() && extPending.Valid() && Disjoint(pending, extPending) && Disjoint(extPending, pending)
      && pending.closed == extPending.closed
    }

    /** The receiving half as Channel has it, apart from what its readers did before. */
    ghost function Receiving(): C.Receiver
      reads this, pending, extPending, pending.spine, extPending.spine
    {
      C.Receiver(maxIncomingPayload, myWindow, C.Stream(pending.Contents(), [], 0, 0),
                 C.Stream(extPending.Contents(), [], 0, 0), 0, pending.closed)
    }

    /** The channel as Channel has it, apart from what its goroutines did before. */
    ghost function Here(): C.Endpoint
      reads this, pending, extPending, pending.spine, extPending.spine, remoteWin
    {
      C.Endpoint(inbound, decided, listed, sentClose, Receiving(),
                 C.Sender(maxRemotePayload, remoteWin.State(), sentEOF, false, []))
    }

    constructor (outbound: bool, localId: uint32)
      ensures Valid() && fresh(pending) && fresh(extPending) && fresh(remoteWin) && fresh(pending.spine)
              && fresh(extPending.spine)
      ensures Here() == C.Opened([], !outbound).(tx := C.Opened([], false).tx) && wire == []
      ensures inbound == !outbound && this.localId == localId
    {
      OpenedReceiver(!outbound);
      var a, b := TwoBuffers();
      pending, extPending := a, b;
      remoteWin := new Window();
      inbound, this.localId, decided, listed := !outbound, localId, false, true;
      myWindow, maxIncomingPayload := 0x20_0000, if outbound then 0x8000 else 0;
      maxRemotePayload, remoteId, sentClose, sentEOF, wire := 0, 0, false, false, [];
    }

    /** writePacket: once a CLOSE has gone out nothing follows it. */
    method WritePacket(packet: seq<byte>) returns (ok: bool)
      requires packet != []
      modifies this`sentClose, this`wire
      ensures ok == !old(sentClose)
      ensures wire == if ok then old(wire) + [packet] else old(wire)
      ensures sentClose == (old(sentClose) || packet[0] == MSG_CLOSE)
    {
      if sentClose {
        return false;
      }
      sentClose := packet[0] == MSG_CLOSE;
      wire := wire + [packet];
      ok := true;
    }

    /** The sending half as Channel has it at the start of a round, with this goroutine alone. */
    function Sending(window: WindowState, data: seq<byte>, code: uint32): C.Sender
      reads this
    {
      C.Sender(maxRemotePayload, window, sentEOF, false, [C.Writer(code, data, false, 0, [], [])])
    }

    /** One round of WriteExtended: reserve what the peer allows and send that much. */
    method WriteChunk(data: seq<byte>, code: uint32) returns (n: nat, ok: bool)
      requires 0 < |data| < 0x1_0000_0000 && maxRemotePayload > 0 && Ready(remoteWin.State())
      modifies this`sentClose, this`wire, remoteWin
      ensures ok == (!old(remoteWin.closed) && !old(sentClose)) && sentClose == old(sentClose)
      ensures remoteWin.closed == old(remoteWin.closed)
      ensures !ok ==> n == 0 && wire == old(wire)
      ensures ok ==> 0 < n == Min(Min(maxRemotePayload, |data|), old(remoteWin.win))
      ensures ok ==> remoteWin.win == old(remoteWin.win) - n
      ensures ok ==> wire == old(wire) + [Encode(remoteId, DataPacket(code, n, data[..n]))]
      ensures var t := C.ReserveChunk(Sending(old(remoteWin.State()), data, code), 0);
              && remoteWin.State() == t.win
              && (ok ==> C.CanSend(t, 0) && C.Sent(t, 0).writers[0].todo == data[n..]
                         && wire == old(wire) + [Encoded(remoteId, localId, C.ChunkPacket(t, 0))])
    {
      var space := Min(maxRemotePayload, |data|);
      var got, eof := remoteWin.ReserveSpace(space);
      if eof {
        return 0, false;
      }
      var packet := Encode(remoteId, DataPacket(code, got, data[..got]));
      ok := WritePacket(packet);
      n := if ok then got else 0;
    }

    /**
     * WriteExtended. The window grows as the peer grants credit: before each look at it one of the grants
     * is added, which is all that waiting for credit does. What has been sent is the beginning of the data,
     * in packets of a size the peer allows, and it uses up no more than the window and the credit.
     */
    method WriteExtended(data: seq<byte>, code: uint32, grants: seq<uint32>)
      returns (n: nat, ok: bool, used: nat, ghost ds: seq<DataPacket>, ghost credit: nat)
      requires |data| < 0x1_0000_0000 && maxRemotePayload > 0
      modifies this`sentClose, this`wire, remoteWin
      ensures n <= |data| && Payloads(ds) == data[..n] && Sendable(ds, code, maxRemotePayload)
      ensures wire == old(wire) + EncodeAll(remoteId, ds)
      ensures forall p <- wire[|old(wire)|..] :: |p| >= 5 && Recipient(p) == remoteId
      ensures used <= |grants| && credit <= Sum(grants[..used]) && n <= old(remoteWin.win) + credit
      ensures old(remoteWin.win) + Sum(grants) < TWO32 ==> credit == Sum(grants[..used])
      ensures ok ==> remoteWin.win + n == old(remoteWin.win) + credit
      ensures ok && n < |data| ==> used == |grants| && remoteWin.win == 0
      ensures ok <== !old(sentEOF) && !old(sentClose) && !old(remoteWin.closed)
      ensures old(sentEOF) ==> n == 0 && !ok
    {
      n, ok, ds := 0, !sentEOF, [];
      used, credit := 0, 0;
      while ok && n < |data| && (remoteWin.win > 0 || remoteWin.closed || used < |grants|)
        invariant n <= |data| && Payloads(ds) == data[..n] && Sendable(ds, code, maxRemotePayload)
        invariant wire == old(wire) + EncodeAll(remoteId, ds)
        invariant used <= |grants| && credit <= Sum(grants[..used]) && n <= old(remoteWin.win) + credit
        invariant old(remoteWin.win) + Sum(grants) < TWO32 ==> credit == Sum(grants[..used])
        invariant ok ==> remoteWin.win + n == old(remoteWin.win) + credit
        invariant sentClose == old(sentClose) && remoteWin.closed == old(remoteWin.closed)
        invariant ok <== !old(sentEOF) && !old(sentClose) && !old(remoteWin.closed)
        invariant old(sentEOF) ==> n == 0 && !ok
        decreases |grants| - used, |data| - n, ok
      {
        if used < |grants| {
          credit := TakeGrant(grants, used, credit, old(remoteWin.win) + credit - remoteWin.win);
          used := used + 1;
        }
        if remoteWin.win > 0 || remoteWin.closed {
          n, ok, ds := WriteNext(data, n, code, ds, old(wire));
        }
      }
      AllAddressed(remoteId, ds);
      assert wire[|old(wire)|..] == EncodeAll(remoteId, ds);
    }

    /** The peer's next grant is added to the window, unless it would overflow; spent has been used up of all before. */
    method TakeGrant(grants: seq<uint32>, used: nat, ghost credit: nat, ghost spent: int) returns (ghost more: nat)
      requires used < |grants| && credit <= Sum(grants[..used]) && 0 <= spent
      modifies remoteWin
      ensures credit <= more <= Sum(grants[..used + 1]) && remoteWin.win == old(remoteWin.win) + (more - credit)
      ensures old(remoteWin.win) + spent - credit + Sum(grants) < TWO32 && credit == Sum(grants[..used])
              ==> more == Sum(grants[..used + 1])
      ensures remoteWin.closed == old(remoteWin.closed)
    {
      SumNext(grants, used);
      var taken := remoteWin.AddCredit(grants[used]);
      more := credit + if taken then grants[used] else 0;
    }

    /** One round: the next chunk of the data in a packet behind those already sent. */
    method WriteNext(data: seq<byte>, n: nat, code: uint32, ghost ds: seq<DataPacket>, ghost before: seq<seq<byte>>)
      returns (m: nat, ok: bool, ghost es: seq<DataPacket>)
      requires n < |data| < 0x1_0000_0000 && maxRemotePayload > 0 && Ready(remoteWin.State())
      requires Payloads(ds) == data[..n] && Sendable(ds, code, maxRemotePayload)
      requires wire == before + EncodeAll(remoteId, ds)
      modifies this`sentClose, this`wire, remoteWin
      ensures ok == (!old(remoteWin.closed) && !old(sentClose)) && sentClose == old(sentClose)
      ensures remoteWin.closed == old(remoteWin.closed)
      ensures if ok then n < m <= |data| && remoteWin.win + (m - n) == old(remoteWin.win) else m == n
      ensures Payloads(es) == data[..m] && Sendable(es, code, maxRemotePayload)
      ensures wire == before + EncodeAll(remoteId, es)
    {
      m, es := n, ds;
      var k;
      k, ok := WriteChunk(data[n..], code);
      if ok {
        ghost var d := DataPacket(code, k, data[n..][..k]);
        Extended(ds, d, data, n, remoteId, before);
        m, es := n + k, ds + [d];
      }
    }

    /** handleData: the checks in the order of the code, then the buffer that the code selects. */
    method HandleData(packet: seq<byte>) returns (ok: bool)
      requires Valid() && packet != [] && |packet| < 0x1_0000_0000
      modifies this`myWindow, pending, extPending, pending.spine, extPending.spine
      ensures Valid()
      ensures Decode(packet) == None ==> !ok && Receiving() == old(Receiving())
      ensures Decode(packet).Some? ==>
                var d := Decode(packet).value;
                var a := C.HandleData(old(Receiving()), d.code, d.length, d.payload);
                ok == a.Absorbed? && Receiving() == if ok then a.r.(discarded := 0) else old(Receiving())
    {
      var decoded := Decode(packet);
      if decoded == None {
        return false;
      }
      var d := decoded.value;
      if d.length == 0 {
        return true;
      }
      if d.length > maxIncomingPayload || d.length != |d.payload| || myWindow < d.length {
        return false;
      }
      myWindow := myWindow - d.length;
      DeliverStream(d.code, d.payload);
      ok := true;
    }

    /** Data goes to the buffer of its stream; other extended data is dropped. */
    method DeliverStream(code: uint32, data: seq<byte>)
      requires Valid()
      modifies pending, extPending, pending.spine, extPending.spine
      ensures Valid() && pending.closed == old(pending.closed) && extPending.closed == old(extPending.closed)
      ensures pending.Contents() == old(pending.Contents()) + if code == 0 then data else []
      ensures extPending.Contents() == old(extPending.Contents()) + if code == 1 then data else []
    {
      if code == 1 {
        Deliver(extPending, pending, data);
      } else if code == 0 {
        Deliver(pending, extPending, data);
      }
    }

    /** adjustWindow: the window grows in 32 bits and the credit is announced, unless a CLOSE has gone out. */
    method AdjustWindow(n: uint32) returns (ok: bool)
      modifies this`myWindow, this`sentClose, this`wire
      ensures myWindow == U32(old(myWindow) as int + n as int) && sentClose == old(sentClose) && ok == !old(sentClose)
      ensures wire == if ok then old(wire) + [[MSG_ADJUST] + BigEndian(remoteId, 4) + BigEndian(n, 4)] else old(wire)
    {
      myWindow := U32(myWindow as int + n as int);
      ok := WritePacket([MSG_ADJUST] + BigEndian(remoteId, 4) + BigEndian(n, 4));
    }

    /**
     * ReadExtended: what is read is credited at once, on either stream, and only an empty, closed buffer
     * is the end. A code without a buffer is refused.
     */
    method ReadExtended(dst: array<byte>, code: uint32) returns (n: nat, outcome: Option<Outcome>)
      requires Valid() && dst.Length < 0x1_0000_0000
      modifies this`myWindow, this`sentClose, this`wire, pending, extPending, pending.spine, extPending.spine, dst
      ensures Valid() && sentClose == old(sentClose) && (outcome.None? <==> code > 1)
      ensures code > 1 ==> n == 0 && Receiving() == old(Receiving())
      ensures code <= 1 ==>
                && Took(C.At(old(Receiving()), code).buf, old(pending.closed), dst[..], n, outcome.value)
                && Receiving() == Plain(Reads(old(Receiving()), code, n))
      ensures wire == if n > 0 && !old(sentClose) then old(wire) + [Encoded(remoteId, localId, C.Adjust(n))]
                      else old(wire)
    {
      if code <= 1 {
        ReadsAre(Receiving(), code, Min(dst.Length, |C.At(Receiving(), code).buf|));
      }
      n, outcome := DrainStream(dst, code);
      ghost var r, c := Receiving(), dst[..];
      Repay(n);
      assert dst[..] == c;
    }

    /** What was read is credited. */
    method Repay(n: uint32)
      requires Valid()
      modifies this`myWindow, this`sentClose, this`wire
      ensures Valid() && sentClose == old(sentClose)
      ensures Receiving() == old(Receiving()).(myWindow := U32(old(myWindow) as int + n))
      ensures wire == if n > 0 && !old(sentClose) then old(wire) + [Encoded(remoteId, localId, C.Adjust(n))]
                      else old(wire)
    {
      if n > 0 {
        var _ := AdjustWindow(n);
      }
    }

    // -------------------------------------------------------------- opening, ending and closing

    /** handleChannelOpen, on the side that was asked: what the open message says about the other side. */
    method TakeOpen(peersId: uint32, window: uint32, most: uint32)
      requires inbound && !decided && remoteWin.State() == WindowState(0, false)
      modifies this`remoteId, this`maxRemotePayload, remoteWin
      ensures remoteId == peersId && maxRemotePayload == most && remoteWin.State() == WindowState(window, false)
    {
      remoteId, maxRemotePayload := peersId, most;
      var _ := remoteWin.AddCredit(window);
    }

    /** Accept: a second answer is refused. */
    method Accept() returns (ok: bool)
      requires Valid() && inbound
      modifies this`maxIncomingPayload, this`decided, this`sentClose, this`wire
      ensures Valid() && ok == (!old(decided) && !old(sentClose))
      ensures old(decided) ==> Here() == old(Here()) && wire == old(wire)
      ensures !old(decided) ==>
                && Here() == Forget(C.Act(old(Here()), C.Accept))
                && wire == old(wire) + Sends(remoteId, localId, C.Out(old(Here()), C.Accept))
    {
      if decided {
        return false;
      }
      maxIncomingPayload := 0x8000;
      decided := true;
      ok := WritePacket([MSG_CONFIRM] + BigEndian(remoteId, 4) + BigEndian(localId, 4) + BigEndian(myWindow, 4)
                        + BigEndian(maxIncomingPayload, 4));
    }

    /** CloseWrite, which is refused before the channel has been answered. */
    method CloseWrite() returns (ok: bool)
      requires Valid()
      modifies this`sentEOF, this`sentClose, this`wire
      ensures Valid() && ok == (decided && !old(sentClose))
      ensures !decided ==> Here() == old(Here()) && wire == old(wire)
      ensures decided ==>
                && Here() == Forget(C.Act(old(Here()), C.CloseWrite))
                && wire == old(wire) + Sends(remoteId, localId, C.Out(old(Here()), C.CloseWrite))
    {
      if !decided {
        return false;
      }
      sentEOF := true;
      ok := WritePacket([MSG_EOF] + BigEndian(remoteId, 4));
    }

    /** Close, which is refused before the channel has been answered. */
    method CloseChannel() returns (ok: bool)
      requires Valid()
      modifies this`sentClose, this`wire
      ensures Valid() && ok == (decided && !old(sentClose))
      ensures !decided ==> Here() == old(Here()) && wire == old(wire)
      ensures decided ==>
                && Here() == Forget(C.Act(old(Here()), C.CloseChannel))
                && wire == old(wire) + Sends(remoteId, localId, C.Out(old(Here()), C.CloseChannel))
    {
      if !decided {
        return false;
      }
      ok := WritePacket([MSG_CLOSE] + BigEndian(remoteId, 4));
    }

    // -------------------------------------------------------------- handlePacket

    /** Both streams end; what waits in them stays. */
    method EndStreams()
      requires Valid()
      modifies pending, extPending
      ensures Valid() && pending.closed && extPending.closed
      ensures Receiving() == old(Receiving()).(eof := true)
    {
      extPending.CloseBuffer();
      pending.CloseBuffer();
    }

    /** A CLOSE is answered with a CLOSE, and everything that waits on the channel is let go. */
    method HandleClose()
      requires Valid() && listed
      modifies this`sentClose, this`wire, this`listed, pending, extPending, remoteWin
      ensures Valid() && Here() == Forget(C.Handle(old(Here()), C.Close).e)
      ensures wire == old(wire) + Sends(remoteId, localId, if old(sentClose) then [] else [C.Close])
    {
      OneSent(remoteId, localId, C.Close);
      AnswerClose();
    }

    method AnswerClose()
      requires Valid() && listed
      modifies this`sentClose, this`wire, this`listed, pending, extPending, remoteWin
      ensures Valid() && sentClose && !listed && remoteWin.State() == old(remoteWin.State()).(closed := true)
      ensures Receiving() == old(Receiving()).(eof := true)
      ensures wire == old(wire) + if old(sentClose) then [] else [Encoded(remoteId, localId, C.Close)]
    {
      var _ := WritePacket([MSG_CLOSE] + BigEndian(remoteId, 4));
      Shut();
    }

    /** remove and close. */
    method Shut()
      requires Valid() && listed
      modifies this`sentClose, this`listed, pending, extPending, remoteWin
      ensures Valid() && sentClose && !listed && remoteWin.State() == old(remoteWin.State()).(closed := true)
      ensures Receiving() == old(Receiving()).(eof := true)
    {
      listed := false;
      EndStreams();
      sentClose := true;
      remoteWin.Close();
    }

    /** The first answer to a channel that our side has opened. */
    method ResponseReceived() returns (ok: bool)
      modifies this`decided
      ensures ok == (!inbound && !old(decided)) && decided == (old(decided) || ok)
    {
      if inbound || decided {
        return false;
      }
      decided := true;
      ok := true;
    }

    /** OPEN_CONFIRMATION: from now on the channel has a number at the other side. */
    method HandleConfirm(packet: seq<byte>) returns (ok: bool)
      requires Valid() && listed && packet != [] && packet[0] == MSG_CONFIRM && |packet| < 0x1_0000_0000
      modifies this`decided, this`remoteId, this`maxRemotePayload, remoteWin
      ensures Valid()
      ensures var r := C.Handle(old(Here()), Parsed(packet, true));
              ok == r.Effect? && (ok ==> Here() == Forget(r.e) && remoteId == Sender(packet))
      ensures !ok ==> remoteId == old(remoteId) && maxRemotePayload == old(maxRemotePayload)
                      && remoteWin.State() == old(remoteWin.State())
    {
      ok := |packet| >= 17;
      if ok {
        ok := TakeConfirm(U32(FromBigEndian(packet[5..9])), U32(FromBigEndian(packet[9..13])),
                          U32(FromBigEndian(packet[13..17])));
      }
    }

    method TakeConfirm(id: uint32, window: uint32, most: uint32) returns (ok: bool)
      modifies this`decided, this`remoteId, this`maxRemotePayload, remoteWin
      ensures ok == (!inbound && !old(decided) && 9 <= most <= 0x8000_0000)
      ensures ok ==> decided && remoteId == id && maxRemotePayload == most
                     && remoteWin.State() == Add(old(remoteWin.State()), window).0
      ensures !ok ==> remoteId == old(remoteId) && maxRemotePayload == old(maxRemotePayload)
                      && remoteWin.State() == old(remoteWin.State())
    {
      ok := ResponseReceived();
      if ok {
        if most < 9 || most > 0x8000_0000 {
          return false;
        }
        remoteId, maxRemotePayload := id, most;
        var _ := remoteWin.AddCredit(window);
      }
    }

    /** WINDOW_ADJUST. */
    method HandleAdjust(packet: seq<byte>) returns (ok: bool)
      requires Valid() && listed && packet != [] && packet[0] == MSG_ADJUST && |packet| < 0x1_0000_0000
      modifies remoteWin
      ensures Valid()
      ensures var r := C.Handle(old(Here()), Parsed(packet, true)); ok == r.Effect? && (ok ==> Here() == Forget(r.e))
    {
      ok := |packet| == 9;
      if ok {
        ok := remoteWin.AddCredit(U32(FromBigEndian(packet[5..9])));
      }
    }

    /** OPEN_FAILURE: the channel is given up. */
    method HandleFailure(readable: bool) returns (ok: bool)
      requires Valid()
      modifies this`decided, this`listed
      ensures Valid() && ok == (readable && !inbound && !old(decided))
      ensures Here() == if ok then old(Here()).(decided := true, listed := false) else old(Here())
    {
      ok := false;
      if readable {
        ok := ResponseReceived();
        if ok {
          listed := false;
        }
      }
    }

    /**
     * handlePacket: one packet does to the object and to the wire what Channel says it does, and the packet
     * loop ends exactly when it says so.
     */
    method HandlePacket(packet: seq<byte>, readable: bool) returns (ok: bool)
      requires Valid() && listed && packet != [] && |packet| < 0x1_0000_0000
      modifies this, pending, extPending, pending.spine, extPending.spine, remoteWin
      ensures Valid() && (!ok ==> wire == old(wire))
      ensures packet[0] != MSG_FAILURE ==>
                var r := C.Handle(old(Here()), Parsed(packet, readable));
                && ok == r.Effect?
                && (ok ==> Here() == Forget(r.e) && wire == old(wire) + Sends(remoteId, localId, r.out))
      ensures packet[0] == MSG_FAILURE ==>
                && ok == (readable && !inbound && !old(decided)) && wire == old(wire)
                && Here() == if ok then old(Here()).(decided := true, listed := false) else old(Here())
      ensures ok ==> remoteId == if packet[0] == MSG_CONFIRM then Sender(packet) else old(remoteId)
    {
      if packet[0] == MSG_DATA || packet[0] == MSG_EXTENDED {
        ok := HandleData(packet);
      } else if packet[0] == MSG_CLOSE {
        HandleClose();
        ok := true;
      } else if packet[0] == MSG_EOF {
        EndStreams();
        ok := true;
      } else {
        ok := HandleOther(packet, readable);
      }
      assert wire == old(wire) || packet[0] == MSG_CLOSE;
    }

    /** The messages that are decoded as structs. */
    method HandleOther(packet: seq<byte>, readable: bool) returns (ok: bool)
      requires Valid() && listed && packet != [] && |packet| < 0x1_0000_0000
      requires packet[0] !in {MSG_DATA, MSG_EXTENDED, MSG_CLOSE, MSG_EOF}
      modifies this`decided, this`listed, this`remoteId, this`maxRemotePayload, remoteWin
      ensures Valid()
      ensures packet[0] != MSG_FAILURE ==>
                var r := C.Handle(old(Here()), Parsed(packet, readable));
                ok == r.Effect? && (ok ==> Here() == Forget(r.e) && r.out == [])
      ensures packet[0] == MSG_FAILURE ==>
                && ok == (readable && !inbound && !old(decided))
                && Here() == if ok then old(Here()).(decided := true, listed := false) else old(Here())
      ensures ok ==> remoteId == if packet[0] == MSG_CONFIRM then Sender(packet) else old(remoteId)
    {
      if packet[0] == MSG_FAILURE {
        ok := HandleFailure(readable);
      } else if packet[0] == MSG_CONFIRM {
        ok := HandleConfirm(packet);
      } else if packet[0] == MSG_ADJUST {
        ok := HandleAdjust(packet);
      } else {
        ok := readable;
      }
    }

    /** The buffer that the code selects. */
    method DrainStream(dst: array<byte>, code: uint32) returns (n: nat, outcome: Option<Outcome>)
      requires Valid()
      modifies pending, extPending, pending.spine, extPending.spine, dst
      ensures Valid() && (outcome.None? <==> code > 1)
      ensures code > 1 ==> n == 0 && Receiving() == old(Receiving())
      ensures code <= 1 ==>
                var t := C.At(old(Receiving()), code);
                && Took(t.buf, old(pending.closed), dst[..], n, outcome.value)
                && Receiving() == C.With(old(Receiving()), code, t.(buf := t.buf[n..]))
    {
      n, outcome := 0, None;
      var o;
      if code == 1 {
        n, o := Drain(extPending, pending, dst);
        outcome := Some(o);
      } else if code == 0 {
        n, o := Drain(pending, extPending, dst);
        outcome := Some(o);
      }
    }
  }

  /** A reader's steps in Channel: the bytes are taken, returned to the window and announced. */
  function Reads(r: C.Receiver, code: uint32, n: nat): C.Receiver
    requires n <= |C.At(r, code).buf|
  {
    C.Settle(C.Return(C.Take(r, code, n), code, n), code, n)
  }

  /** Without what only Channel remembers: bytes read and bytes thrown away. */
  function Plain(r: C.Receiver): C.Receiver {
    r.(discarded := 0, stdout := r.stdout.(read := []), stderr := r.stderr.(read := []))
  }

  lemma ReadsAre(r: C.Receiver, code: uint32, n: nat)
    requires code <= 1 && n <= |C.At(r, code).buf| && r == Plain(r)
    ensures var t := C.At(r, code);
            Plain(Reads(r, code, n)) == C.With(r, code, t.(buf := t.buf[n..])).(myWindow := U32(r.myWindow + n))
  {
  }

  lemma OneSent(remoteId: uint32, localId: uint32, p: C.Packet)
    requires !p.Request? && !p.Malformed?
    ensures Sends(remoteId, localId, [p]) == [Encoded(remoteId, localId, p)] && Sends(remoteId, localId, []) == []
  {
  }

  function Forget(e: C.Endpoint): C.Endpoint {
    e.(rx := Plain(e.rx), tx := e.tx.(cleanEof := false))
  }

  /**
   * A read from a buffer: the first n bytes are in front in dst, as many as fit. An empty buffer is the end
   * of the stream if it is closed, and otherwise the reader waits.
   */
  predicate Took(buf: seq<byte>, closed: bool, dst: seq<byte>, n: nat, outcome: Outcome) {
    && n == Min(|dst|, |buf|) && dst[..n] == buf[..n]
    && outcome == if dst == [] || buf != [] then Outcome.Data else if closed then Eof else Wait
  }

  /** Reads from one buffer and leaves the other alone. */
  method Drain(b: Buffer, other: Buffer, dst: array<byte>) returns (n: nat, outcome: Outcome)
    requires b.Valid() && other.Valid() && Disjoint(b, other) && Disjoint(other, b)
    modifies b, b.spine, dst
    ensures b.Valid() && other.Valid() && Disjoint(b, other) && Disjoint(other, b) && b.closed == old(b.closed)
    ensures Took(old(b.Contents()), old(b.closed), dst[..], n, outcome)
    ensures b.Contents() == old(b.Contents())[n..] && other.Contents() == old(other.Contents())
    ensures forall e <- b.spine :: e in old(b.spine)
  {
    ghost var spine := other.spine;
    n, outcome := b.Read(dst);
    assert other.spine == spine && forall e <- spine :: e.buf == old(e.buf) && e.next == old(e.next);
    other.SameBufs(spine);
  }

  lemma OpenedReceiver(inbound: bool)
    ensures C.Opened([], inbound).rx ==
            C.Receiver(if inbound then 0 else 0x8000, 0x20_0000, C.Stream([], [], 0, 0), C.Stream([], [], 0, 0), 0,
                false)
  {
  }

  ghost predicate Disjoint(b: Buffer, other: Buffer)
    reads b, other
  {
    b != other && forall e <- b.spine :: e !in other.spine
  }

  method TwoBuffers() returns (a: Buffer, b: Buffer)
    ensures fresh(a) && fresh(b) && fresh(a.spine) && fresh(b.spine) && a.Valid() && b.Valid()
    ensures Disjoint(a, b) && Disjoint(b, a) && !a.closed && !b.closed && a.Contents() == b.Contents() == []
  {
    a := new Buffer();
    ghost var spine := a.spine;
    b := new Buffer();
    assert a.spine == spine;
  }

  /** Writes to one buffer and leaves the other alone. */
  method Deliver(b: Buffer, other: Buffer, data: seq<byte>)
    requires b.Valid() && other.Valid() && Disjoint(b, other) && Disjoint(other, b)
    modifies b, b.spine
    ensures b.Valid() && other.Valid() && Disjoint(b, other) && Disjoint(other, b) && b.closed == old(b.closed)
    ensures b.Contents() == old(b.Contents()) + data && other.Contents() == old(other.Contents())
  {
    ghost var spine := other.spine;
    b.Write(data);
    assert other.spine == spine && forall e <- spine :: e.buf == old(e.buf) && e.next == old(e.next);
    other.SameBufs(spine);
  }

  lemma AllAddressed(remoteId: uint32, ds: seq<DataPacket>)
    ensures forall p <- EncodeAll(remoteId, ds) :: |p| >= 5 && Recipient(p) == remoteId
  {
    forall i | 0 <= i < |ds| ensures |Encode(remoteId, ds[i])| >= 5 && Recipient(Encode(remoteId, ds[i])) == remoteId {
      DataLayout(remoteId, ds[i]);
    }
  }

  /** One more packet behind those already sent. */
  lemma Extended(ds: seq<DataPacket>, d: DataPacket, data: seq<byte>, n: nat, remoteId: uint32, wire: seq<seq<byte>>)
    requires n + |d.payload| <= |data| && Payloads(ds) == data[..n] && d.payload == data[n..][..|d.payload|]
    ensures Payloads(ds + [d]) == data[..n + |d.payload|]
    ensures wire + EncodeAll(remoteId, ds) + [Encode(remoteId, d)] == wire + EncodeAll(remoteId, ds + [d])
  {
    assert (ds + [d])[..|ds|] == ds;
    assert data[..n + |d.payload|] == data[..n] + data[n..][..|d.payload|];
    assert EncodeAll(remoteId, ds + [d]) == EncodeAll(remoteId, ds) + [Encode(remoteId, d)];
  }
}
