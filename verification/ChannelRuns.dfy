/**
 * Two endpoints of one channel joined by two in-order packet queues, and what holds
 * in every state that any interleaving of their goroutines can reach.
 */
module ChannelRuns {
  import opened Words
  import opened Channel

  /** Queues hold packets sent and not yet handled. `failed` is set when a packet loop gives up. */
  datatype System = System(left: Endpoint, right: Endpoint,
                           toRight: seq<Packet>, toLeft: seq<Packet>, failed: bool)

  datatype Move = Acts(s: Step) | Delivers

  /** A move of the left endpoint. */
  predicate LeftMoves(s: System, m: Move, s': System) {
    && !s.failed
    && match m
       case Acts(a) =>
         && Enabled(s.left, a)
         && s' == s.(left := Act(s.left, a), toRight := s.toRight + Out(s.left, a))
       case Delivers =>
         && s.toLeft != []
         && var r := Handle(s.left, s.toLeft[0]);
            s' == if r.Failure? then s.(failed := true)
                  else s.(left := r.e, toRight := s.toRight + r.out, toLeft := s.toLeft[1..])
  }

  function Mirror(s: System): System {
    System(s.right, s.left, s.toLeft, s.toRight, s.failed)
  }

  predicate Moves(s: System, onLeft: bool, m: Move, s': System) {
    if onLeft then LeftMoves(s, m, s') else LeftMoves(Mirror(s), m, Mirror(s'))
  }

  /** The left side has sent its channel open and the right side has received it. */
  function Start(leftCodes: seq<uint32>, rightCodes: seq<uint32>): System {
    System(Opened(leftCodes, false), Opened(rightCodes, true), [], [], false)
  }

  /** No stream is written by two goroutines at once, which the source leaves to the race detector. */
  predicate Distinct(codes: seq<uint32>) {
    forall i, j :: 0 <= i < j < |codes| ==> codes[i] != codes[j]
  }

  /** A run: the streams each side writes, the states passed through, and which side made which move. */
  datatype Run = Run(leftCodes: seq<uint32>, rightCodes: seq<uint32>,
                     states: seq<System>, onLeft: seq<bool>, moves: seq<Move>)

  predicate IsRun(r: Run) {
    && |r.states| == |r.moves| + 1 == |r.onLeft| + 1
    && Distinct(r.leftCodes) && Distinct(r.rightCodes)
    && r.states[0] == Start(r.leftCodes, r.rightCodes)
    && forall k :: 0 <= k < |r.moves| ==> Moves(r.states[k], r.onLeft[k], r.moves[k], r.states[k + 1])
  }

  // ---------------------------------------------------------------- measures of queues

  function DataBytes(q: seq<Packet>): nat {
    if q == [] then 0 else (if q[0].Data? then q[0].length else 0) + DataBytes(q[1..])
  }

  function Granted(p: Packet): nat {
    match p
    case Adjust(n) => n
    case Confirm(w, _) => w
    case _ => 0
  }

  function Grants(q: seq<Packet>): nat {
    if q == [] then 0 else Granted(q[0]) + Grants(q[1..])
  }

  function Confirms(q: seq<Packet>): nat {
    if q == [] then 0 else (if q[0].Confirm? then 1 else 0) + Confirms(q[1..])
  }

  function BytesOn(p: Packet, code: int): seq<byte> {
    if p.Data? && p.code == code then p.payload else []
  }

  /** The bytes of one stream that are on their way. */
  function InFlight(q: seq<Packet>, code: int): seq<byte> {
    if q == [] then [] else BytesOn(q[0], code) + InFlight(q[1..], code)
  }

  lemma {:induction false} Appended(q: seq<Packet>, p: Packet)
    ensures DataBytes(q + [p]) == DataBytes(q) + if p.Data? then p.length else 0
    ensures Grants(q + [p]) == Grants(q) + Granted(p)
    ensures Confirms(q + [p]) == Confirms(q) + if p.Confirm? then 1 else 0
    ensures forall code :: InFlight(q + [p], code) == InFlight(q, code) + BytesOn(p, code)
  {
    if q == [] {
      assert q + [p] == [p];
    } else {
      assert (q + [p])[1..] == q[1..] + [p];
      Appended(q[1..], p);
    }
    forall code ensures InFlight(q + [p], code) == InFlight(q, code) + BytesOn(p, code) {
      AppendedStream(q, p, code);
    }
  }

  lemma {:induction false} AppendedStream(q: seq<Packet>, p: Packet, code: int)
    ensures InFlight(q + [p], code) == InFlight(q, code) + BytesOn(p, code)
  {
    if q == [] {
      assert q + [p] == [p];
    } else {
      assert (q + [p])[1..] == q[1..] + [p];
      AppendedStream(q[1..], p, code);
    }
  }

  function Reserved(ws: seq<Writer>): nat {
    if ws == [] then 0 else ws[0].chunk + Reserved(ws[1..])
  }

  lemma {:induction false} ReservedUpdate(ws: seq<Writer>, i: nat, w: Writer)
    requires i < |ws|
    ensures Reserved(ws[i := w]) == Reserved(ws) - ws[i].chunk + w.chunk
    ensures Reserved(ws) >= ws[i].chunk
  {
    if i == 0 {
      assert ws[i := w][1..] == ws[1..];
    } else {
      assert ws[i := w][1..] == ws[1..][i - 1 := w];
      ReservedUpdate(ws[1..], i - 1, w);
    }
  }

  /** Everything the writer of a stream has put on the wire. */
  function SentOn(ws: seq<Writer>, code: int): seq<byte> {
    if ws == [] then [] else if ws[0].code == code then ws[0].sent else SentOn(ws[1..], code)
  }

  predicate DistinctWriters(ws: seq<Writer>) {
    forall i, j :: 0 <= i < j < |ws| ==> ws[i].code != ws[j].code
  }

  lemma {:induction false} SentOnUpdate(ws: seq<Writer>, i: nat, w: Writer, code: int)
    requires i < |ws| && DistinctWriters(ws) && w.code == ws[i].code
    ensures SentOn(ws, ws[i].code) == ws[i].sent
    ensures SentOn(ws[i := w], code) == if code == w.code then w.sent else SentOn(ws, code)
  {
    if i == 0 {
      assert ws[i := w][1..] == ws[1..];
    } else {
      assert ws[i := w][1..] == ws[1..][i - 1 := w];
      SentOnUpdate(ws[1..], i - 1, w, code);
    }
  }

  // ---------------------------------------------------------------- what one endpoint keeps

  predicate WriterOk(w: Writer, closing: bool) {
    && (if w.busy then w.chunk <= |w.todo| && w.chunk <= MAX_PACKET else w.chunk == 0)
    && w.sent <= w.offered
    && (!closing ==> w.offered == w.sent + w.todo)
  }

  /** Everything that was ever handed to Write has gone out. */
  predicate AllDone(t: Sender) {
    forall i :: 0 <= i < |t.writers| ==> t.writers[i].sent == t.writers[i].offered
  }

  predicate SenderOk(t: Sender, closing: bool) {
    && t.maxRemote <= MAX_PACKET
    && (t.win.closed ==> closing)
    && (forall i :: 0 <= i < |t.writers| ==> WriterOk(t.writers[i], closing))
    && DistinctWriters(t.writers)
    && (t.cleanEof ==> t.sentEof && AllIdle(t) && AllDone(t))
  }

  predicate Open(e: Endpoint) {
    !e.inbound || e.decided
  }

  predicate EndpointOk(e: Endpoint) {
    && SenderOk(e.tx, e.sentClose)
    && Accounted(e.rx) == WINDOW_SIZE
    && e.rx.maxIncoming == (if Open(e) then MAX_PACKET else 0)
    && (!Open(e) ==> e.rx.myWindow == WINDOW_SIZE)
    && (!e.listed ==> e.sentClose && e.rx.eof && e.tx.win.closed)
    && (!e.decided ==> !e.sentClose && AllIdle(e.tx) && !e.tx.sentEof)
  }

  /** What honest endpoints put in a packet. */
  predicate PacketOk(p: Packet) {
    match p
    case Data(_, length, payload) => length == |payload| <= MAX_PACKET
    case Confirm(_, maxPacket) => maxPacket == MAX_PACKET
    case Malformed => false
    case _ => true
  }

  lemma SenderStepKeeps(t: Sender, i: nat, w: Writer, closing: bool)
    requires SenderOk(t, closing) && i < |t.writers|
    requires WriterOk(w, closing) && w.code == t.writers[i].code
    requires t.cleanEof ==> Idle(w) && w.sent == w.offered
    ensures SenderOk(t.(writers := t.writers[i := w]), closing)
  {
  }

  lemma OutOk(e: Endpoint, s: Step)
    requires SenderOk(e.tx, e.sentClose) && Enabled(e, s)
    ensures forall p <- Out(e, s) :: PacketOk(p)
  {
  }

  lemma ActKeepsSender(e: Endpoint, s: Step)
    requires SenderOk(e.tx, e.sentClose) && Enabled(e, s)
    ensures SenderOk(Act(e, s).tx, Act(e, s).sentClose)
    ensures forall p <- Out(e, s) :: PacketOk(p)
  {
    OutOk(e, s);
    match s
    case StartWrite(i, data) => StartKeepsSender(e, i, data);
    case ReserveStep(i) => ReserveKeepsSender(e, i);
    case SendStep(i) => SendKeepsSender(e, i);
    case _ => OtherKeepsSender(e, s);
  }

  lemma StartKeepsSender(e: Endpoint, i: nat, data: seq<byte>)
    requires SenderOk(e.tx, e.sentClose) && Enabled(e, StartWrite(i, data))
    ensures SenderOk(Channel.Start(e.tx, i, data), e.sentClose)
  {
    SenderStepKeeps(e.tx, i, Channel.Start(e.tx, i, data).writers[i], e.sentClose);
  }

  lemma ReserveKeepsSender(e: Endpoint, i: nat)
    requires SenderOk(e.tx, e.sentClose) && Enabled(e, ReserveStep(i))
    ensures SenderOk(ReserveChunk(e.tx, i), e.sentClose)
  {
    SenderStepKeeps(e.tx, i, ReserveChunk(e.tx, i).writers[i], e.sentClose);
  }

  lemma SendKeepsSender(e: Endpoint, i: nat)
    requires SenderOk(e.tx, e.sentClose) && Enabled(e, SendStep(i))
    ensures SenderOk(Act(e, SendStep(i)).tx, e.sentClose)
  {
    if !e.sentClose {
      SentKeepsWriter(e.tx.writers[i]);
    }
    SenderStepKeeps(e.tx, i, Act(e, SendStep(i)).tx.writers[i], e.sentClose);
  }

  lemma OtherKeepsSender(e: Endpoint, s: Step)
    requires SenderOk(e.tx, e.sentClose) && Enabled(e, s) && !s.StartWrite? && !s.ReserveStep? && !s.SendStep?
    ensures SenderOk(Act(e, s).tx, Act(e, s).sentClose)
  {
  }

  lemma SentKeepsWriter(w: Writer)
    requires WriterOk(w, false) && w.busy
    ensures WriterOk(w.(todo := w.todo[w.chunk..], busy := false, chunk := 0, sent := w.sent + w.todo[..w.chunk]),
            false)
  {
    assert w.sent + w.todo == w.sent + w.todo[..w.chunk] + w.todo[w.chunk..];
  }

  lemma ActKeepsEndpoint(e: Endpoint, s: Step)
    requires EndpointOk(e) && Enabled(e, s)
    ensures EndpointOk(Act(e, s))
    ensures forall p <- Out(e, s) :: PacketOk(p)
  {
    ActKeepsSender(e, s);
    match s
    case ReadStep(code, n) => TakeConserves(e.rx, code, n);
    case ReturnStep(code, n) => ReturnConserves(e.rx, code, n);
    case AnnounceStep(code, n) => if code == 1 {}
    case _ =>
  }

  lemma HandleKeepsEndpoint(e: Endpoint, p: Packet)
    requires EndpointOk(e) && PacketOk(p) && Handle(e, p).Effect?
    requires p.Close? ==> e.decided
    ensures EndpointOk(Handle(e, p).e)
    ensures forall o <- Handle(e, p).out :: PacketOk(o)
  {
    if p.Data? {
      HandleDataConserves(e.rx, p.code, p.length, p.payload);
    }
  }

  // ---------------------------------------------------------------- one direction: the packets

  predicate NoClose(q: seq<Packet>) {
    forall p <- q :: !p.Close?
  }

  /** A CLOSE is the last thing a side sends, and it takes the other side's channel off its list. */
  predicate CloseOk(s: Endpoint, t: Endpoint, q: seq<Packet>) {
    if !s.sentClose then t.listed && NoClose(q)
    else if t.listed then q != [] && q[|q| - 1].Close? && NoClose(q[..|q| - 1])
    else q == []
  }

  /** The single confirmation travels from the side that was asked to the side that asked. */
  predicate ConfirmOk(s: Endpoint, t: Endpoint, q: seq<Packet>) {
    && s.inbound != t.inbound
    && Confirms(q) == (if s.inbound && s.decided && !t.decided then 1 else 0)
    && (s.inbound && !s.decided ==> !t.decided)
    && (t.inbound && !t.decided ==> !s.decided)
  }

  /** From s to t over q. */
  predicate PacketsOk(s: Endpoint, t: Endpoint, q: seq<Packet>) {
    && (forall p <- q :: PacketOk(p))
    && CloseOk(s, t, q)
    && ConfirmOk(s, t, q)
  }

  lemma ActKeepsPacketsSent(x: Endpoint, y: Endpoint, q: seq<Packet>, a: Step)
    requires EndpointOk(x) && Enabled(x, a) && PacketsOk(x, y, q)
    ensures PacketsOk(Act(x, a), y, q + Out(x, a))
  {
    ActKeepsEndpoint(x, a);
    var out := Out(x, a);
    if out == [] {
      assert q + out == q;
    } else {
      Appended(q, out[0]);
      assert out == [out[0]];
    }
  }

  lemma ActKeepsPacketsReceived(x: Endpoint, y: Endpoint, q: seq<Packet>, a: Step)
    requires Enabled(x, a) && PacketsOk(y, x, q)
    ensures PacketsOk(y, Act(x, a), q)
  {
  }

  lemma HeadIsBeforeLast(q: seq<Packet>)
    requires |q| > 1
    ensures q[0] in q[..|q| - 1]
  {
    assert q[..|q| - 1][0] == q[0];
  }

  /** The head of a queue can be a CLOSE only for a side whose channel is decided. */
  lemma CloseComesLate(x: Endpoint, y: Endpoint, q: seq<Packet>)
    requires EndpointOk(y) && PacketsOk(y, x, q) && q != [] && q[0].Close?
    ensures q == [q[0]] && y.sentClose && x.listed && x.decided
  {
    assert q[0] in q;
    if |q| > 1 {
      HeadIsBeforeLast(q);
    }
    assert q[1..] == [] && Confirms(q) == 0;
  }

  lemma HandleKeepsPacketsReceived(x: Endpoint, y: Endpoint, q: seq<Packet>)
    requires EndpointOk(x) && EndpointOk(y) && PacketsOk(y, x, q) && q != [] && Handle(x, q[0]).Effect?
    ensures PacketsOk(y, Handle(x, q[0]).e, q[1..])
  {
    var p := q[0];
    if p.Close? {
      CloseComesLate(x, y, q);
    } else if y.sentClose {
      assert q[1..][|q| - 2] == q[|q| - 1];
      assert q[1..][..|q| - 2] == q[..|q| - 1][1..];
    }
  }

  lemma HandleKeepsPacketsSent(x: Endpoint, y: Endpoint, q: seq<Packet>, p: Packet)
    requires EndpointOk(x) && PacketsOk(x, y, q) && Handle(x, p).Effect? && PacketOk(p)
    requires p.Close? ==> x.decided
    requires p.Confirm? ==> y.decided
    ensures PacketsOk(Handle(x, p).e, y, q + Handle(x, p).out)
  {
    var out := Handle(x, p).out;
    if out == [] {
      assert q + out == q;
    } else {
      Appended(q, Close);
    }
  }

  // ---------------------------------------------------------------- one direction: the window

  /**
   * The window that t has granted to s and not got back: s may still use it, has set it aside,
   * has sent it as data on its way, or has not yet heard of it.
   */
  function Outstanding(s: Sender, t: Receiver, q: seq<Packet>, back: seq<Packet>): nat {
    s.win.win + Reserved(s.writers) + DataBytes(q) + Grants(back) + t.stdout.owed + t.stderr.owed
  }

  /** It is exactly t's window until a CLOSE is sent, and never more. */
  predicate WindowOk(s: Endpoint, t: Endpoint, q: seq<Packet>, back: seq<Packet>) {
    var o := Outstanding(s.tx, t.rx, q, back);
    if !Open(t) then o == 0
    else o <= t.rx.myWindow && (!s.sentClose && !t.sentClose ==> o == t.rx.myWindow)
  }

  lemma Counted(q: seq<Packet>, out: seq<Packet>)
    requires |out| <= 1
    ensures DataBytes(q + out) == DataBytes(q) + if out != [] && out[0].Data? then out[0].length else 0
    ensures Grants(q + out) == Grants(q) + if out != [] then Granted(out[0]) else 0
  {
    if out == [] {
      assert q + out == q;
    } else {
      Appended(q, out[0]);
      assert out == [out[0]];
    }
  }

  lemma ActKeepsWindowSent(x: Endpoint, y: Endpoint, q: seq<Packet>, back: seq<Packet>, a: Step)
    requires EndpointOk(x) && Enabled(x, a) && WindowOk(x, y, q, back)
    ensures WindowOk(Act(x, a), y, q + Out(x, a), back)
  {
    if a.StartWrite? || a.ReserveStep? {
      ReserveKeepsWindow(x, y, q, back, a);
    } else if a.SendStep? {
      SendKeepsWindow(x, y, q, back, a.slot);
    } else {
      Counted(q, Out(x, a));
    }
  }

  lemma ReserveKeepsWindow(x: Endpoint, y: Endpoint, q: seq<Packet>, back: seq<Packet>, a: Step)
    requires EndpointOk(x) && Enabled(x, a) && (a.StartWrite? || a.ReserveStep?) && WindowOk(x, y, q, back)
    ensures WindowOk(Act(x, a), y, q + Out(x, a), back)
  {
    Counted(q, Out(x, a));
    ReservedUpdate(x.tx.writers, a.slot, Act(x, a).tx.writers[a.slot]);
  }

  lemma SendKeepsWindow(x: Endpoint, y: Endpoint, q: seq<Packet>, back: seq<Packet>, i: nat)
    requires EndpointOk(x) && Enabled(x, SendStep(i)) && WindowOk(x, y, q, back)
    ensures WindowOk(Act(x, SendStep(i)), y, q + Out(x, SendStep(i)), back)
  {
    Counted(q, Out(x, SendStep(i)));
    ReservedUpdate(x.tx.writers, i, Act(x, SendStep(i)).tx.writers[i]);
  }

  lemma ActKeepsWindowReceived(x: Endpoint, y: Endpoint, q: seq<Packet>, back: seq<Packet>, a: Step)
    requires EndpointOk(x) && Enabled(x, a) && WindowOk(y, x, q, back)
    ensures WindowOk(y, Act(x, a), q, back + Out(x, a))
  {
    match a
    case ReturnStep(code, n) => ReturnKeepsWindow(x, y, q, back, code, n);
    case AnnounceStep(code, n) => AnnounceKeepsWindow(x, y, q, back, code, n);
    case ReadStep(code, n) =>
      Counted(back, Out(x, a));
      if code == 1 {}
    case _ => Counted(back, Out(x, a));
  }

  lemma ReturnKeepsWindow(x: Endpoint, y: Endpoint, q: seq<Packet>, back: seq<Packet>, code: int, n: nat)
    requires EndpointOk(x) && Enabled(x, ReturnStep(code, n)) && WindowOk(y, x, q, back)
    ensures WindowOk(y, Act(x, ReturnStep(code, n)), q, back + Out(x, ReturnStep(code, n)))
  {
    Counted(back, Out(x, ReturnStep(code, n)));
    ReturnConserves(x.rx, code, n);
    if code == 1 {}
  }

  lemma AnnounceKeepsWindow(x: Endpoint, y: Endpoint, q: seq<Packet>, back: seq<Packet>, code: int, n: nat)
    requires EndpointOk(x) && Enabled(x, AnnounceStep(code, n)) && WindowOk(y, x, q, back)
    ensures WindowOk(y, Act(x, AnnounceStep(code, n)), q, back + Out(x, AnnounceStep(code, n)))
  {
    Counted(back, Out(x, AnnounceStep(code, n)));
    if code == 1 {}
  }

  lemma HandleKeepsWindowReceived(x: Endpoint, y: Endpoint, q: seq<Packet>, back: seq<Packet>)
    requires EndpointOk(x) && WindowOk(y, x, q, back) && q != [] && PacketOk(q[0]) && Handle(x, q[0]).Effect?
    requires q[0].Confirm? ==> !x.inbound
    ensures WindowOk(y, Handle(x, q[0]).e, q[1..], back + Handle(x, q[0]).out)
  {
    var p := q[0];
    var out := Handle(x, p).out;
    if out == [] {
      assert back + out == back;
    } else {
      Appended(back, Close);
    }
    if p.Data? && p.length != 0 {
      if p.code == 1 {} else if p.code == 0 {}
    }
  }

  lemma HandleKeepsWindowSent(x: Endpoint, y: Endpoint, q: seq<Packet>, back: seq<Packet>)
    requires EndpointOk(x) && EndpointOk(y) && WindowOk(x, y, q, back) && back != [] && Handle(x, back[0]).Effect?
    ensures WindowOk(Handle(x, back[0]).e, y, q + Handle(x, back[0]).out, back[1..])
  {
    var p := back[0];
    var out := Handle(x, p).out;
    if out == [] {
      assert q + out == q;
    } else {
      Appended(q, Close);
    }
    assert Outstanding(x.tx, y.rx, q, back) <= WINDOW_SIZE;
    match p
    case Adjust(n) =>
    case Confirm(w, m) =>
    case Close =>
    case _ =>
  }

  /** An honest peer is never told that it wrote too much, that its credit overflows, or anything else. */
  lemma NothingIsRefused(x: Endpoint, y: Endpoint, q: seq<Packet>, back: seq<Packet>)
    requires EndpointOk(x) && EndpointOk(y) && q != []
    requires PacketsOk(y, x, q) && WindowOk(y, x, q, back) && WindowOk(x, y, back, q)
    ensures Handle(x, q[0]).Effect?
  {
    var p := q[0];
    assert p in q;
    match p
    case Data(_, _, _) => assert p.length <= Outstanding(y.tx, x.rx, q, back);
    case Adjust(n) => assert x.tx.win.win + n <= Outstanding(x.tx, y.rx, back, q) <= WINDOW_SIZE;
    case Confirm(_, _) => assert Confirms(q) > 0;
    case _ =>
  }

  // ---------------------------------------------------------------- one direction: the bytes

  /** What has been sent on a stream has been read, is waiting, or is on its way, in that order. */
  predicate StreamOk(s: Sender, t: Receiver, q: seq<Packet>, code: int) {
    SentOn(s.writers, code) == At(t, code).read + At(t, code).buf + InFlight(q, code)
  }

  predicate StreamsOk(s: Sender, t: Receiver, q: seq<Packet>) {
    StreamOk(s, t, q, 0) && StreamOk(s, t, q, 1)
  }

  /** What a step puts on the wire for a stream is what its writer counts as sent. */
  lemma SentGrows(x: Endpoint, a: Step, code: int)
    requires DistinctWriters(x.tx.writers) && Enabled(x, a)
    ensures SentOn(Act(x, a).tx.writers, code) ==
            SentOn(x.tx.writers, code) + if Out(x, a) == [] then [] else BytesOn(Out(x, a)[0], code)
  {
    if a.StartWrite? || a.ReserveStep? || a.SendStep? {
      SentOnUpdate(x.tx.writers, a.slot, Act(x, a).tx.writers[a.slot], code);
    }
  }

  lemma ActKeepsStreamSent(x: Endpoint, y: Endpoint, q: seq<Packet>, a: Step, code: int)
    requires EndpointOk(x) && Enabled(x, a) && StreamOk(x.tx, y.rx, q, code)
    ensures StreamOk(Act(x, a).tx, y.rx, q + Out(x, a), code)
  {
    SentGrows(x, a, code);
    StreamGrows(At(y.rx, code), q, Out(x, a), code);
  }

  lemma StreamGrows(t: Stream, q: seq<Packet>, out: seq<Packet>, code: int)
    requires |out| <= 1
    ensures t.read + t.buf + InFlight(q + out, code) == t.read + t.buf + InFlight(q, code) + if out == [] then []
            else BytesOn(out[0], code)
  {
    if out == [] {
      assert q + out == q;
    } else {
      Appended(q, out[0]);
      assert out == [out[0]];
    }
  }

  lemma ActKeepsStreamReceived(x: Endpoint, y: Endpoint, q: seq<Packet>, a: Step, code: int)
    requires Enabled(x, a) && IsStream(code) && StreamOk(y.tx, x.rx, q, code)
    ensures StreamOk(y.tx, Act(x, a).rx, q, code)
  {
    match a
    case ReadStep(c, n) =>
      var t := At(x.rx, c);
      assert t.read + t.buf == t.read + t.buf[..n] + t.buf[n..];
      if c == 1 {} else {}
    case ReturnStep(c, n) => if c == 1 {} else {}
    case AnnounceStep(c, n) => if c == 1 {} else {}
    case _ =>
  }

  lemma HandleKeepsStreamReceived(x: Endpoint, y: Endpoint, q: seq<Packet>, code: int)
    requires IsStream(code) && StreamOk(y.tx, x.rx, q, code)
    requires q != [] && PacketOk(q[0]) && Handle(x, q[0]).Effect?
    ensures StreamOk(y.tx, Handle(x, q[0]).e.rx, q[1..], code)
  {
    var p := q[0];
    var t, t' := At(x.rx, code), At(Handle(x, p).e.rx, code);
    Arrives(x, p, code);
  }

  /** A handled packet adds its bytes to the buffer of its stream. */
  lemma Arrives(x: Endpoint, p: Packet, code: int)
    requires IsStream(code) && PacketOk(p) && Handle(x, p).Effect?
    ensures var t, t' := At(x.rx, code), At(Handle(x, p).e.rx, code);
            t'.read == t.read && t'.buf == t.buf + BytesOn(p, code)
  {
    if p.Data? && p.length != 0 {
      if p.code == 0 {} else if p.code == 1 {} else {}
    } else {
      assert At(x.rx, code).buf + BytesOn(p, code) == At(x.rx, code).buf;
    }
  }

  lemma HandleKeepsStreamSent(x: Endpoint, y: Endpoint, q: seq<Packet>, p: Packet, code: int)
    requires StreamOk(x.tx, y.rx, q, code) && Handle(x, p).Effect?
    ensures StreamOk(Handle(x, p).e.tx, y.rx, q + Handle(x, p).out, code)
  {
    var out := Handle(x, p).out;
    if out == [] {
      assert q + out == q;
    } else {
      Appended(q, Close);
    }
  }

  // ---------------------------------------------------------------- one direction: the end of the stream

  predicate NoData(q: seq<Packet>) {
    forall p <- q :: !p.Data?
  }

  /** Data never follows an EOF if the writers had finished when it was sent, and the EOF gets there. */
  predicate EofOk(s: Endpoint, t: Endpoint, q: seq<Packet>) {
    && (s.tx.cleanEof ==> t.rx.eof || Eof in q)
    && (!s.tx.sentEof ==> (forall p <- q :: !p.Eof?) && (t.rx.eof ==> !t.listed))
    && (s.tx.cleanEof ==> (t.rx.eof ==> NoData(q)) && forall i, j :: 0 <= i < j < |q| && q[i].Eof? ==> !q[j].Data?)
  }

  lemma ActKeepsEofSent(x: Endpoint, y: Endpoint, q: seq<Packet>, a: Step)
    requires EndpointOk(x) && Enabled(x, a) && CloseOk(x, y, q) && EofOk(x, y, q)
    ensures EofOk(Act(x, a), y, q + Out(x, a))
  {
    if x.tx.cleanEof {
      assert NoData(Out(x, a));
    }
    if a.CloseWrite? && !x.sentClose {
      assert Out(x, a) == [Eof];
    }
  }

  lemma HandleKeepsEofSent(x: Endpoint, y: Endpoint, q: seq<Packet>, p: Packet)
    requires EofOk(x, y, q) && Handle(x, p).Effect?
    ensures EofOk(Handle(x, p).e, y, q + Handle(x, p).out)
  {
    assert NoData(Handle(x, p).out);
  }

  lemma HandleKeepsEofReceived(x: Endpoint, y: Endpoint, q: seq<Packet>)
    requires EndpointOk(x) && PacketsOk(y, x, q) && EndpointOk(y) && EofOk(y, x, q)
    requires q != [] && Handle(x, q[0]).Effect?
    ensures EofOk(y, Handle(x, q[0]).e, q[1..])
  {
    var p := q[0];
    if p.Close? {
      CloseComesLate(x, y, q);
    }
  }

  lemma {:induction false} NoDataInFlight(q: seq<Packet>, code: int)
    requires NoData(q)
    ensures InFlight(q, code) == []
  {
    if q != [] {
      NoDataInFlight(q[1..], code);
    }
  }

  // ---------------------------------------------------------------- every reachable state

  /** All that holds from s to t, with q on its way and `back` coming the other way. */
  predicate Direction(s: Endpoint, t: Endpoint, q: seq<Packet>, back: seq<Packet>) {
    && PacketsOk(s, t, q)
    && WindowOk(s, t, q, back)
    && StreamsOk(s.tx, t.rx, q)
    && EofOk(s, t, q)
  }

  predicate Inv(s: System) {
    && !s.failed
    && EndpointOk(s.left) && EndpointOk(s.right)
    && Direction(s.left, s.right, s.toRight, s.toLeft)
    && Direction(s.right, s.left, s.toLeft, s.toRight)
  }

  lemma StartKeeps(leftCodes: seq<uint32>, rightCodes: seq<uint32>)
    requires Distinct(leftCodes) && Distinct(rightCodes)
    ensures Inv(Start(leftCodes, rightCodes))
  {
    OpenedOk(leftCodes, false);
    OpenedOk(rightCodes, true);
    StartDirection(leftCodes, false, rightCodes);
    StartDirection(rightCodes, true, leftCodes);
  }

  lemma StartDirection(codes: seq<uint32>, inbound: bool, others: seq<uint32>)
    ensures Direction(Opened(codes, inbound), Opened(others, !inbound), [], [])
  {
    StartStreams(codes, inbound, others, 0);
    StartStreams(codes, inbound, others, 1);
    StartWindow(codes, inbound, others);
  }

  lemma StartStreams(codes: seq<uint32>, inbound: bool, others: seq<uint32>, code: int)
    requires IsStream(code)
    ensures StreamOk(Opened(codes, inbound).tx, Opened(others, !inbound).rx, [], code)
  {
    FreshWriters(Opened(codes, inbound).tx.writers);
  }

  lemma StartWindow(codes: seq<uint32>, inbound: bool, others: seq<uint32>)
    ensures WindowOk(Opened(codes, inbound), Opened(others, !inbound), [], [])
  {
    FreshWriters(Opened(codes, inbound).tx.writers);
    if inbound {
    } else {
    }
  }

  lemma OpenedOk(codes: seq<uint32>, inbound: bool)
    requires Distinct(codes)
    ensures EndpointOk(Opened(codes, inbound))
  {
    var e := Opened(codes, inbound);
    assert SenderOk(e.tx, false) by {
      assert forall i :: 0 <= i < |codes| ==> e.tx.writers[i] == Writer(codes[i], [], false, 0, [], []);
    }
  }

  lemma {:induction false} FreshWriters(ws: seq<Writer>)
    requires forall w <- ws :: w.sent == [] && w.chunk == 0
    ensures Reserved(ws) == 0 && forall code :: SentOn(ws, code) == []
  {
    if ws != [] {
      FreshWriters(ws[1..]);
    }
  }

  lemma LeftActKeeps(s: System, a: Step, s': System)
    requires Inv(s) && LeftMoves(s, Acts(a), s')
    ensures Inv(s')
  {
    var x, y := s.left, s.right;
    ActKeepsEndpoint(x, a);
    ActKeepsPacketsSent(x, y, s.toRight, a);
    ActKeepsPacketsReceived(x, y, s.toLeft, a);
    ActKeepsWindowSent(x, y, s.toRight, s.toLeft, a);
    ActKeepsWindowReceived(x, y, s.toLeft, s.toRight, a);
    forall code | IsStream(code)
      ensures StreamOk(s'.left.tx, y.rx, s'.toRight, code) && StreamOk(y.tx, s'.left.rx, s.toLeft, code)
    {
      ActKeepsStreamSent(x, y, s.toRight, a, code);
      ActKeepsStreamReceived(x, y, s.toLeft, a, code);
    }
    ActKeepsEofSent(x, y, s.toRight, a);
  }

  lemma LeftDeliverKeeps(s: System, s': System)
    requires Inv(s) && LeftMoves(s, Delivers, s')
    ensures Inv(s')
  {
    var x, y, p := s.left, s.right, s.toLeft[0];
    assert p in s.toLeft;
    NothingIsRefused(x, y, s.toLeft, s.toRight);
    if p.Close? {
      CloseComesLate(x, y, s.toLeft);
    }
    assert p.Confirm? ==> Confirms(s.toLeft) > 0;
    HandleKeepsEndpoint(x, p);
    HandleKeepsPacketsReceived(x, y, s.toLeft);
    HandleKeepsPacketsSent(x, y, s.toRight, p);
    HandleKeepsWindowReceived(x, y, s.toLeft, s.toRight);
    HandleKeepsWindowSent(x, y, s.toRight, s.toLeft);
    forall code | IsStream(code)
      ensures StreamOk(s'.left.tx, y.rx, s'.toRight, code) && StreamOk(y.tx, s'.left.rx, s'.toLeft, code)
    {
      HandleKeepsStreamReceived(x, y, s.toLeft, code);
      HandleKeepsStreamSent(x, y, s.toRight, p, code);
    }
    HandleKeepsEofReceived(x, y, s.toLeft);
    HandleKeepsEofSent(x, y, s.toRight, p);
  }

  lemma MoveKeeps(s: System, onLeft: bool, m: Move, s': System)
    requires Inv(s) && Moves(s, onLeft, m, s')
    ensures Inv(s')
  {
    var a, b := if onLeft then s else Mirror(s), if onLeft then s' else Mirror(s');
    if m.Acts? {
      LeftActKeeps(a, m.s, b);
    } else {
      LeftDeliverKeeps(a, b);
    }
  }

  lemma {:induction false} RunsKeep(r: Run, k: nat)
    requires IsRun(r) && k < |r.states|
    ensures Inv(r.states[k])
  {
    if k == 0 {
      StartKeeps(r.leftCodes, r.rightCodes);
    } else {
      RunsKeep(r, k - 1);
      MoveKeeps(r.states[k - 1], r.onLeft[k - 1], r.moves[k - 1], r.states[k]);
    }
  }

  // ---------------------------------------------------------------- the main results

  /** A state seen from the sender of one direction, so that each result below covers both. */
  function Facing(s: System, rightward: bool): System {
    if rightward then s else Mirror(s)
  }

  /**
   * Flow control. However two honest endpoints interleave, no packet is ever refused. Once a
   * receiver has opened its window, that window equals what its peer can still use, has
   * reserved, has in flight or has yet to hear of, as long as neither side has sent a CLOSE;
   * after a CLOSE the receiver's window can only be larger.
   */
  lemma FlowControl(r: Run, k: nat, rightward: bool)
    requires IsRun(r) && k < |r.states|
    ensures !r.states[k].failed
    ensures var s := Facing(r.states[k], rightward);
            var o := Outstanding(s.left.tx, s.right.rx, s.toRight, s.toLeft);
            Open(s.right) ==>
              && o <= s.right.rx.myWindow <= WINDOW_SIZE
              && (!s.left.sentClose && !s.right.sentClose ==> o == s.right.rx.myWindow)
  {
    RunsKeep(r, k);
  }

  /**
   * Ordered delivery. What readers of a stream have received is a prefix of what its writer
   * was given, however the window and the packet size cut it; the rest of what was sent is
   * waiting or in flight, in order.
   */
  lemma OrderedDelivery(r: Run, k: nat, rightward: bool, slot: nat)
    requires IsRun(r) && k < |r.states|
    requires slot < |Facing(r.states[k], rightward).left.tx.writers|
    requires IsStream(Facing(r.states[k], rightward).left.tx.writers[slot].code)
    ensures var s := Facing(r.states[k], rightward);
            var w := s.left.tx.writers[slot];
            var t := At(s.right.rx, w.code);
            t.read + t.buf + InFlight(s.toRight, w.code) == w.sent && w.sent <= w.offered && t.read <= w.offered
  {
    RunsKeep(r, k);
    DeliveredInOrder(Facing(r.states[k], rightward), slot);
  }

  lemma DeliveredInOrder(s: System, slot: nat)
    requires Inv(s) && slot < |s.left.tx.writers| && IsStream(s.left.tx.writers[slot].code)
    ensures var w := s.left.tx.writers[slot];
            var t := At(s.right.rx, w.code);
            t.read + t.buf + InFlight(s.toRight, w.code) == w.sent && w.sent <= w.offered
  {
    var w := s.left.tx.writers[slot];
    SentOnUpdate(s.left.tx.writers, slot, w, w.code);
  }

  // ---------------------------------------------------------------- histories

  /** The side that faces us made move k. */
  predicate Ours(r: Run, k: nat, rightward: bool, a: Step)
    requires IsRun(r) && k < |r.moves|
  {
    r.onLeft[k] == rightward && r.moves[k] == Acts(a)
  }

  /** What a move hands to Write on a slot. */
  function Handed(m: Move, slot: nat): seq<byte> {
    if m.Acts? && m.s.StartWrite? && m.s.slot == slot then m.s.data else []
  }

  /** Everything that one side handed to Write on a slot in its first k moves. */
  function Written(r: Run, k: nat, rightward: bool, slot: nat): seq<byte>
    requires IsRun(r) && k <= |r.moves|
  {
    if k == 0 then []
    else Written(r, k - 1, rightward, slot) + if r.onLeft[k - 1] == rightward then Handed(r.moves[k - 1], slot) else []
  }

  /** How much readers of one side took from a stream in its first k moves. */
  function Taken(r: Run, k: nat, rightward: bool, code: int): nat
    requires IsRun(r) && k <= |r.moves|
  {
    if k == 0 then 0
    else
      var m := r.moves[k - 1];
      Taken(r, k - 1, rightward, code) +
      if r.onLeft[k - 1] == rightward && m.Acts? && m.s.ReadStep? && m.s.code == code then m.s.n else 0
  }

  /** What a move does to one endpoint. */
  predicate Changes(x: Endpoint, ours: bool, m: Move, back: seq<Packet>, x': Endpoint) {
    if !ours then x' == x
    else if m.Acts? then Enabled(x, m.s) && x' == Act(x, m.s)
    else x' == x || (back != [] && Handle(x, back[0]).Effect? && x' == Handle(x, back[0]).e)
  }

  lemma MoveChanges(s: System, onLeft: bool, m: Move, s': System, rightward: bool)
    requires Moves(s, onLeft, m, s')
    ensures var f := Facing(s, rightward);
            Changes(f.left, onLeft == rightward, m, f.toLeft, Facing(s', rightward).left)
  {
  }

  lemma ChangeHands(x: Endpoint, ours: bool, m: Move, back: seq<Packet>, x': Endpoint, slot: nat)
    requires Changes(x, ours, m, back, x') && slot < |x.tx.writers|
    ensures |x'.tx.writers| == |x.tx.writers| && x'.tx.writers[slot].code == x.tx.writers[slot].code
    ensures x'.tx.writers[slot].offered == x.tx.writers[slot].offered + if ours then Handed(m, slot) else []
  {
    if ours && m.Acts? {
      ActHands(x, m.s, slot);
    }
  }

  lemma ActHands(x: Endpoint, a: Step, slot: nat)
    requires Enabled(x, a) && slot < |x.tx.writers|
    ensures |Act(x, a).tx.writers| == |x.tx.writers| && Act(x, a).tx.writers[slot].code == x.tx.writers[slot].code
    ensures Act(x, a).tx.writers[slot].offered == x.tx.writers[slot].offered + Handed(Acts(a), slot)
  {
    match a
    case StartWrite(i, data) =>
    case ReserveStep(i) =>
    case SendStep(i) =>
    case _ =>
  }

  lemma ChangeTakes(x: Endpoint, ours: bool, m: Move, back: seq<Packet>, x': Endpoint, code: int)
    requires Changes(x, ours, m, back, x') && IsStream(code)
    ensures |At(x'.rx, code).read| ==
            |At(x.rx, code).read| + if ours && m.Acts? && m.s.ReadStep? && m.s.code == code then m.s.n else 0
  {
    if ours && m.Acts? {
      ActTakes(x, m.s, code);
    } else if x' != x {
      HandleTakes(x, back[0], code);
    }
  }

  lemma ActTakes(x: Endpoint, a: Step, code: int)
    requires Enabled(x, a) && IsStream(code)
    ensures |At(Act(x, a).rx, code).read| == |At(x.rx, code).read| + if a.ReadStep? && a.code == code then a.n else 0
  {
    match a
    case ReadStep(c, n) => if c == 1 {} else {}
    case ReturnStep(c, n) => if c == 1 {} else {}
    case AnnounceStep(c, n) => if c == 1 {} else {}
    case _ =>
  }

  lemma HandleTakes(x: Endpoint, p: Packet, code: int)
    requires Handle(x, p).Effect? && IsStream(code)
    ensures At(Handle(x, p).e.rx, code).read == At(x.rx, code).read
  {
    if p.Data? && p.length != 0 {
      if p.code == 0 {} else if p.code == 1 {} else {}
    }
  }

  /** The histories of a state are what the moves up to it say: what was written, and how much was read. */
  lemma {:induction false} HistoryIsOfMoves(r: Run, k: nat, rightward: bool, slot: nat, code: int)
    requires IsRun(r) && k < |r.states| && IsStream(code)
    requires slot < |if rightward then r.leftCodes else r.rightCodes|
    ensures var s, codes := Facing(r.states[k], rightward), if rightward then r.leftCodes else r.rightCodes;
            && |s.left.tx.writers| == |codes| && s.left.tx.writers[slot].code == codes[slot]
            && s.left.tx.writers[slot].offered == Written(r, k, rightward, slot)
            && |At(s.left.rx, code).read| == Taken(r, k, rightward, code)
  {
    if k > 0 {
      HistoryIsOfMoves(r, k - 1, rightward, slot, code);
      var s, s' := r.states[k - 1], r.states[k];
      var x, back, x' := Facing(s, rightward).left, Facing(s, rightward).toLeft, Facing(s', rightward).left;
      var ours, m := r.onLeft[k - 1] == rightward, r.moves[k - 1];
      MoveChanges(s, r.onLeft[k - 1], m, s', rightward);
      ChangeHands(x, ours, m, back, x', slot);
      ChangeTakes(x, ours, m, back, x', code);
    }
  }

  lemma SideIsOk(r: Run, k: nat, rightward: bool)
    requires IsRun(r) && k < |r.states|
    ensures EndpointOk(Facing(r.states[k], rightward).left)
  {
    RunsKeep(r, k);
  }

  /** The end of writing stays as clean as it was. */
  lemma {:induction false} CleanStays(r: Run, j: nat, k: nat, rightward: bool)
    requires IsRun(r) && j <= k < |r.states| && Facing(r.states[j], rightward).left.tx.cleanEof
    ensures Facing(r.states[k], rightward).left.tx.cleanEof
  {
    if j < k {
      CleanStays(r, j, k - 1, rightward);
      SideIsOk(r, k - 1, rightward);
      MoveStaysClean(r.states[k - 1], r.onLeft[k - 1], r.moves[k - 1], r.states[k], rightward);
    }
  }

  lemma MoveStaysClean(s: System, onLeft: bool, m: Move, s': System, rightward: bool)
    requires Moves(s, onLeft, m, s') && EndpointOk(Facing(s, rightward).left)
    requires Facing(s, rightward).left.tx.cleanEof
    ensures Facing(s', rightward).left.tx.cleanEof
  {
    var f, x' := Facing(s, rightward), Facing(s', rightward).left;
    MoveChanges(s, onLeft, m, s', rightward);
    ChangeStaysClean(f.left, onLeft == rightward, m, f.toLeft, x');
  }

  lemma ChangeStaysClean(x: Endpoint, ours: bool, m: Move, back: seq<Packet>, x': Endpoint)
    requires EndpointOk(x) && Changes(x, ours, m, back, x') && x.tx.cleanEof
    ensures x'.tx.cleanEof
  {
  }

  /**
   * A clean end. When CloseWrite is called for the first time on a channel that is not closed and whose writers
   * have all returned, the EOF is on its way from then on, or has been handled: once the queue holds none, the
   * stream has ended at the other side, and a reader that finds its buffer empty then has received everything.
   */
  lemma EofIsComplete(r: Run, j: nat, k: nat, rightward: bool)
    requires IsRun(r) && j < k < |r.states| && Ours(r, j, rightward, CloseWrite)
    requires var x := Facing(r.states[j], rightward).left; !x.tx.sentEof && !x.sentClose && AllIdle(x.tx)
    ensures var s := Facing(r.states[k], rightward);
            && (Eof !in s.toRight ==> s.right.rx.eof)
            && forall i :: 0 <= i < |s.left.tx.writers| && s.right.rx.eof ==> Complete(s, i)
  {
    assert Moves(r.states[j], r.onLeft[j], r.moves[j], r.states[j + 1]);
    assert Facing(r.states[j + 1], rightward).left.tx.cleanEof;
    CleanStays(r, j + 1, k, rightward);
    RunsKeep(r, k);
    AllComplete(Facing(r.states[k], rightward));
  }

  lemma AllComplete(s: System)
    requires Inv(s) && s.left.tx.cleanEof
    ensures forall i :: 0 <= i < |s.left.tx.writers| && s.right.rx.eof ==> Complete(s, i)
  {
    forall i | 0 <= i < |s.left.tx.writers| && s.right.rx.eof ensures Complete(s, i) {
      var w := s.left.tx.writers[i];
      if IsStream(w.code) {
        DeliveredInOrder(s, i);
        NoDataInFlight(s.toRight, w.code);
      }
    }
  }

  /** On the stream of writer i, everything written has been read, but for what waits in the buffer. */
  predicate Complete(s: System, i: nat)
    requires i < |s.left.tx.writers|
  {
    var w := s.left.tx.writers[i];
    IsStream(w.code) ==> At(s.right.rx, w.code).read + At(s.right.rx, w.code).buf == w.offered
  }

  /**
   * A close. Once a CLOSE has been sent and the queue holds none, the other side has ended both its streams,
   * closed its send window, sent its own CLOSE and forgotten the channel; before that it knows nothing of it.
   */
  lemma CloseReachesPeer(r: Run, k: nat, rightward: bool)
    requires IsRun(r) && k < |r.states|
    ensures var s := Facing(r.states[k], rightward);
            && (!s.right.listed <==> s.left.sentClose && Close !in s.toRight)
            && (!s.right.listed ==> s.right.rx.eof && s.right.tx.win.closed && s.right.sentClose)
  {
    RunsKeep(r, k);
  }

  predicate SuffixOf(q: seq<Packet>, p: seq<Packet>) {
    |q| <= |p| && q == p[|p| - |q|..]
  }

  /** After its CLOSE a side sends nothing more: its queue only drains. */
  lemma NothingFollowsClose(r: Run, j: nat, k: nat, rightward: bool)
    requires IsRun(r) && j <= k < |r.states|
    requires Facing(r.states[j], rightward).left.sentClose
    ensures SuffixOf(Facing(r.states[k], rightward).toRight, Facing(r.states[j], rightward).toRight)
  {
    Drains(r, j, k, rightward);
  }

  lemma {:induction false} Drains(r: Run, j: nat, k: nat, rightward: bool)
    requires IsRun(r) && j <= k < |r.states|
    requires Facing(r.states[j], rightward).left.sentClose
    ensures Facing(r.states[k], rightward).left.sentClose
    ensures SuffixOf(Facing(r.states[k], rightward).toRight, Facing(r.states[j], rightward).toRight)
  {
    if j < k {
      Drains(r, j, k - 1, rightward);
      DrainsOneMove(r.states[k - 1], r.onLeft[k - 1], r.moves[k - 1], r.states[k], rightward);
      SuffixOfSuffix(Facing(r.states[k], rightward).toRight, Facing(r.states[k - 1], rightward).toRight,
                     Facing(r.states[j], rightward).toRight);
    }
  }

  lemma SuffixOfSuffix(a: seq<Packet>, b: seq<Packet>, c: seq<Packet>)
    requires SuffixOf(a, b) && SuffixOf(b, c)
    ensures SuffixOf(a, c)
  {
  }

  lemma DrainsOneMove(s: System, onLeft: bool, m: Move, s': System, rightward: bool)
    requires Moves(s, onLeft, m, s') && Facing(s, rightward).left.sentClose
    ensures Facing(s', rightward).left.sentClose
    ensures SuffixOf(Facing(s', rightward).toRight, Facing(s, rightward).toRight)
  {
    var a, b := Facing(s, onLeft), Facing(s', onLeft);
    if m.Acts? {
      ActDrains(a, m.s, b);
    } else {
      DeliverDrains(a, b);
    }
  }

  lemma ActDrains(a: System, t: Step, b: System)
    requires LeftMoves(a, Acts(t), b)
    ensures a.left.sentClose ==> b.left.sentClose && SuffixOf(b.toRight, a.toRight)
    ensures b.right == a.right && b.toLeft == a.toLeft
  {
    if a.left.sentClose {
      assert a.toRight + [] == a.toRight;
    }
  }

  lemma DeliverDrains(a: System, b: System)
    requires LeftMoves(a, Delivers, b)
    ensures a.left.sentClose ==> b.left.sentClose && SuffixOf(b.toRight, a.toRight)
    ensures b.right == a.right && SuffixOf(b.toLeft, a.toLeft)
  {
    if a.left.sentClose {
      assert a.toRight + [] == a.toRight;
    }
  }
}
