/**
 * One end of an SSH channel, as channel.go keeps it, cut into the steps that its
 * goroutines can interleave. Each function below is the part of a source function
 * that runs under one lock or between two lock acquisitions.
 */
module Channel {
  import opened Words
  import opened SendWindow

  const MIN_PACKET := 9
  const MAX_PACKET := 0x8000
  const WINDOW_SIZE := 0x20_0000

  /** A payload as the packet layer can deliver it: never 2^32 bytes or more. */
  type Payload = s: seq<byte> | |s| < 0x1_0000_0000

  /** A packet addressed to a channel. A data packet declares a length besides carrying bytes. */
  datatype Packet =
    | Data(code: uint32, length: uint32, payload: Payload)
    | Adjust(n: uint32)
    | Confirm(window: uint32, maxPacket: uint32)
    | Eof
    | Close
    | Request
    | Malformed

  // ---------------------------------------------------------------- the receiving half

  /**
   * A stream at its reading end: bytes waiting, the bytes readers have received so far, bytes
   * received but not yet returned to the window, and bytes returned but not yet announced.
   */
  datatype Stream = Stream(buf: seq<byte>, read: seq<byte>, took: nat, owed: nat)

  datatype Receiver = Receiver(maxIncoming: uint32, myWindow: uint32,
                               stdout: Stream, stderr: Stream, discarded: nat, eof: bool)

  /** The streams are named as in the protocol: extended code 0 is stdout, 1 is stderr. */
  predicate IsStream(code: int) {
    code == 0 || code == 1
  }

  function At(r: Receiver, code: int): Stream {
    if code == 1 then r.stderr else r.stdout
  }

  function With(r: Receiver, code: int, s: Stream): Receiver {
    if code == 1 then r.(stderr := s) else r.(stdout := s)
  }

  /** The buffer's part of ReadExtended: n bytes move from the buffer to the caller. */
  function Take(r: Receiver, code: int, n: nat): Receiver
    requires n <= |At(r, code).buf|
  {
    var t := At(r, code);
    With(r, code, t.(buf := t.buf[n..], read := t.read + t.buf[..n], took := t.took + n))
  }

  /** The first half of adjustWindow, with the source's unchecked 32-bit addition. */
  function Return(r: Receiver, code: int, n: nat): Receiver
    requires n <= At(r, code).took
  {
    var t := At(r, code);
    With(r, code, t.(took := t.took - n, owed := t.owed + n)).(myWindow := U32(r.myWindow + n))
  }

  /** The second half of adjustWindow sends the credit; what it no longer owes. */
  function Settle(r: Receiver, code: int, n: nat): Receiver
    requires n <= At(r, code).owed
  {
    var t := At(r, code);
    With(r, code, t.(owed := t.owed - n))
  }

  datatype Absorbed = Absorbed(r: Receiver) | Refused

  /** handleData: the checks in the source's order, then the buffer the code selects. */
  function HandleData(r: Receiver, code: uint32, length: uint32, payload: Payload): Absorbed {
    if length == 0 then Absorbed(r)
    else if length > r.maxIncoming then Refused
    else if length != |payload| then Refused
    else if r.myWindow < length then Refused
    else
      var r' := r.(myWindow := r.myWindow - length);
      if code > 1 then Absorbed(r'.(discarded := r.discarded + |payload|))
      else
        var t := At(r, code);
        Absorbed(With(r', code, t.(buf := t.buf + payload)))
  }

  /**
   * Where the initial window is at any moment: open to the peer, waiting in a buffer, read
   * but not returned, or spent on extended data that nobody reads.
   */
  function Accounted(r: Receiver): nat {
    r.myWindow + |r.stdout.buf| + |r.stderr.buf| + r.stdout.took + r.stderr.took + r.discarded
  }

  lemma TakeConserves(r: Receiver, code: int, n: nat)
    requires n <= |At(r, code).buf|
    ensures Accounted(Take(r, code, n)) == Accounted(r)
  {
    if code == 1 {} else {}
  }

  /** The comment in adjustWindow: the addition cannot overflow. */
  lemma ReturnConserves(r: Receiver, code: int, n: nat)
    requires n <= At(r, code).took && Accounted(r) == WINDOW_SIZE
    ensures Accounted(Return(r, code, n)) == WINDOW_SIZE
    ensures Return(r, code, n).myWindow == r.myWindow + n
  {
    if code == 1 {} else {}
  }

  lemma HandleDataConserves(r: Receiver, code: uint32, length: uint32, payload: Payload)
    requires HandleData(r, code, length, payload).Absorbed?
    ensures Accounted(HandleData(r, code, length, payload).r) == Accounted(r)
  {
    if length == 0 || code == 0 || code == 1 {} else {}
  }

  // ---------------------------------------------------------------- the sending half

  /**
   * A goroutine that writes one stream. `todo` is the rest of the slice it is sending and
   * `chunk` what it has reserved but not sent; `offered` and `sent` record its history.
   */
  datatype Writer = Writer(code: uint32, todo: seq<byte>, busy: bool, chunk: uint32,
                           offered: seq<byte>, sent: seq<byte>)

  datatype Sender = Sender(maxRemote: uint32, win: WindowState,
                           sentEof: bool, cleanEof: bool, writers: seq<Writer>)

  predicate Idle(w: Writer) {
    w.todo == [] && !w.busy
  }

  predicate AllIdle(t: Sender) {
    forall i :: 0 <= i < |t.writers| ==> Idle(t.writers[i])
  }

  predicate CanStart(t: Sender, i: nat) {
    !t.sentEof && i < |t.writers| && Idle(t.writers[i])
  }

  predicate CanReserve(t: Sender, i: nat) {
    i < |t.writers| && t.writers[i].todo != [] && !t.writers[i].busy && Ready(t.win)
  }

  predicate CanSend(t: Sender, i: nat) {
    i < |t.writers| && t.writers[i].busy && t.writers[i].chunk <= |t.writers[i].todo|
  }

  /** A call of WriteExtended begins. */
  function Start(t: Sender, i: nat, data: seq<byte>): Sender
    requires CanStart(t, i)
  {
    var w := t.writers[i];
    t.(writers := t.writers[i := w.(todo := data, offered := w.offered + data)])
  }

  /** An iteration of WriteExtended up to the packet: the reservation fails once the window is closed. */
  function ReserveChunk(t: Sender, i: nat): Sender
    requires CanReserve(t, i)
  {
    var w := t.writers[i];
    var (win, got) := Reserve(t.win, Min(t.maxRemote, U32(|w.todo|)));
    var w' := if t.win.closed then w.(todo := []) else w.(busy := true, chunk := got);
    t.(win := win, writers := t.writers[i := w'])
  }

  function ChunkPacket(t: Sender, i: nat): Packet
    requires CanSend(t, i)
  {
    var w := t.writers[i];
    Data(w.code, w.chunk, w.todo[..w.chunk])
  }

  /** The rest of the iteration when the packet went out. */
  function Sent(t: Sender, i: nat): Sender
    requires CanSend(t, i)
  {
    var w := t.writers[i];
    t.(writers := t.writers[i := w.(todo := w.todo[w.chunk..], busy := false, chunk := 0,
                                    sent := w.sent + w.todo[..w.chunk])])
  }

  /** How many reservations and packets a call can still make. */
  function Ahead(w: Writer): nat {
    2 * |w.todo| + if w.busy then 0 else 1
  }

  /** Every iteration brings a call of WriteExtended nearer to its end, and a closed window or a CLOSE ends it. */
  lemma CallEnds(t: Sender, i: nat)
    requires t.maxRemote > 0
    ensures CanReserve(t, i) && U32(|t.writers[i].todo|) > 0 ==>
              var w := ReserveChunk(t, i).writers[i];
              Ahead(w) < Ahead(t.writers[i]) && if t.win.closed then Idle(w) else w.busy && 0 < w.chunk <= |w.todo|
    ensures CanSend(t, i) && t.writers[i].chunk > 0 ==>
              Ahead(Sent(t, i).writers[i]) < Ahead(t.writers[i]) && Idle(Dropped(t, i).writers[i])
  {
  }

  /** The rest of the iteration when writePacket returned io.EOF: the call gives up. */
  function Dropped(t: Sender, i: nat): Sender
    requires CanSend(t, i)
  {
    t.(writers := t.writers[i := t.writers[i].(todo := [], busy := false, chunk := 0)])
  }

  /** CloseWrite. History: was every write finished and the channel not closed when it was first called? */
  function EndWriting(t: Sender, closed: bool): Sender {
    t.(sentEof := true, cleanEof := if t.sentEof then t.cleanEof else !closed && AllIdle(t))
  }

  // ---------------------------------------------------------------- a whole endpoint

  datatype Endpoint = Endpoint(inbound: bool, decided: bool, listed: bool, sentClose: bool,
                               rx: Receiver, tx: Sender)

  const EMPTY := Stream([], [], 0, 0)

  /** newChannel on the side that asked for the channel, and on the side that was asked. */
  function Opened(codes: seq<uint32>, inbound: bool): Endpoint {
    var writers := seq(|codes|, i requires 0 <= i < |codes| => Writer(codes[i], [], false, 0, [], []));
    Endpoint(inbound, false, true, false,
             Receiver(if inbound then 0 else MAX_PACKET, WINDOW_SIZE, EMPTY, EMPTY, 0, false),
             if inbound then Sender(MAX_PACKET, WindowState(WINDOW_SIZE, false), false, false, writers)
             else Sender(0, WindowState(0, false), false, false, writers))
  }

  datatype Step =
    | Accept
    | StartWrite(slot: nat, data: seq<byte>)
    | ReserveStep(slot: nat)
    | SendStep(slot: nat)
    | ReadStep(code: int, n: nat)
    | ReturnStep(code: int, n: nat)
    | AnnounceStep(code: int, n: nat)
    | CloseWrite
    | CloseChannel
    | SendRequest

  /** When the goroutine that owns a step can take it. */
  predicate Enabled(e: Endpoint, s: Step) {
    match s
    case Accept => e.inbound && !e.decided
    case StartWrite(i, data) => e.decided && CanStart(e.tx, i)
    case ReserveStep(i) => CanReserve(e.tx, i)
    case SendStep(i) => CanSend(e.tx, i)
    case ReadStep(code, n) => e.decided && IsStream(code) && n <= |At(e.rx, code).buf|
    case ReturnStep(code, n) => IsStream(code) && n <= At(e.rx, code).took
    case AnnounceStep(code, n) => IsStream(code) && n <= At(e.rx, code).owed && n < 0x1_0000_0000
    case CloseWrite => e.decided
    case CloseChannel => e.decided
    case SendRequest => e.decided
  }

  /** The packet a step hands to writePacket, if any. */
  function Offer(e: Endpoint, s: Step): seq<Packet>
    requires Enabled(e, s)
  {
    match s
    case Accept => [Confirm(e.rx.myWindow, MAX_PACKET)]
    case SendStep(i) => [ChunkPacket(e.tx, i)]
    case AnnounceStep(code, n) => [Adjust(n)]
    case CloseWrite => [Eof]
    case CloseChannel => [Close]
    case SendRequest => [Request]
    case _ => []
  }

  /** The packets a step puts on the wire: writePacket lets nothing pass once a CLOSE has been sent. */
  function Out(e: Endpoint, s: Step): seq<Packet>
    requires Enabled(e, s)
  {
    if e.sentClose then [] else Offer(e, s)
  }

  /** A step of some goroutine other than the packet loop. */
  function Act(e: Endpoint, s: Step): Endpoint
    requires Enabled(e, s)
  {
    match s
    case Accept => e.(decided := true, rx := e.rx.(maxIncoming := MAX_PACKET))
    case StartWrite(i, data) => e.(tx := Start(e.tx, i, data))
    case ReserveStep(i) => e.(tx := ReserveChunk(e.tx, i))
    case SendStep(i) => e.(tx := if e.sentClose then Dropped(e.tx, i) else Sent(e.tx, i))
    case ReadStep(code, n) => e.(rx := Take(e.rx, code, n))
    case ReturnStep(code, n) => e.(rx := Return(e.rx, code, n))
    case AnnounceStep(code, n) => e.(rx := Settle(e.rx, code, n))
    case CloseWrite => e.(tx := EndWriting(e.tx, e.sentClose))
    case CloseChannel => e.(sentClose := true)
    case SendRequest => e
  }

  /** What the packet loop does with a packet: a new state and an answer, or the end of the loop. */
  datatype Effect = Effect(e: Endpoint, out: seq<Packet>) | Failure

  /** onePacket and handlePacket. */
  function Handle(e: Endpoint, p: Packet): Effect {
    if !e.listed then Failure
    else match p
      case Data(code, length, payload) =>
        var a := HandleData(e.rx, code, length, payload);
        if a.Absorbed? then Effect(e.(rx := a.r), []) else Failure
      case Adjust(n) =>
        var (w, ok) := Add(e.tx.win, n);
        if ok then Effect(e.(tx := e.tx.(win := w)), []) else Failure
      case Confirm(window, maxPacket) =>
        if e.inbound || e.decided || maxPacket < MIN_PACKET || maxPacket > 0x8000_0000 then Failure
        else Effect(e.(decided := true, tx := e.tx.(maxRemote := maxPacket, win := Add(e.tx.win, window).0)), [])
      case Eof => Effect(e.(rx := e.rx.(eof := true)), [])
      case Close =>
        Effect(e.(listed := false, sentClose := true, rx := e.rx.(eof := true),
                  tx := e.tx.(win := e.tx.win.(closed := true))),
               if e.sentClose then [] else [Close])
      case Request => Effect(e, [])
      case Malformed => Failure
  }

  // ---------------------------------------------------------------- one endpoint, any peer

  /** Something that happens at one end: a goroutine moves, or a packet comes in. */
  datatype Event = Local(s: Step) | Incoming(p: Packet)

  predicate Happens(e: Endpoint, ev: Event, e': Endpoint) {
    match ev
    case Local(s) => Enabled(e, s) && e' == Act(e, s)
    case Incoming(p) => Handle(e, p).Effect? && e' == Handle(e, p).e
  }

  lemma ActConserves(e: Endpoint, s: Step)
    requires Enabled(e, s) && Accounted(e.rx) == WINDOW_SIZE
    ensures Accounted(Act(e, s).rx) == WINDOW_SIZE
  {
    match s
    case ReadStep(code, n) => TakeConserves(e.rx, code, n);
    case ReturnStep(code, n) => ReturnConserves(e.rx, code, n);
    case AnnounceStep(code, n) => if code == 1 {} else {}
    case _ =>
  }

  lemma HandleConserves(e: Endpoint, p: Packet)
    requires Handle(e, p).Effect?
    ensures Accounted(Handle(e, p).e.rx) == Accounted(e.rx)
  {
    if p.Data? {
      HandleDataConserves(e.rx, p.code, p.length, p.payload);
    }
  }

  /** The states an endpoint passes through; the packet loop stops at the first failure. */
  predicate IsHistory(es: seq<Endpoint>, events: seq<Event>) {
    && |es| == |events| + 1
    && forall k :: 0 <= k < |events| ==> Happens(es[k], events[k], es[k + 1])
  }

  /**
   * Against arbitrary incoming packets and any interleaving of readers and writers, the
   * initial window is always the sum of what is open, waiting, read and thrown away.
   */
  lemma WindowIsConserved(es: seq<Endpoint>, events: seq<Event>, codes: seq<uint32>, inbound: bool)
    requires IsHistory(es, events) && es[0] == Opened(codes, inbound)
    ensures forall k :: 0 <= k < |es| ==> Accounted(es[k].rx) == WINDOW_SIZE && es[k].rx.myWindow <= WINDOW_SIZE
  {
    var k := 0;
    while k < |events|
      invariant k <= |events|
      invariant forall j :: 0 <= j <= k ==> Accounted(es[j].rx) == WINDOW_SIZE
    {
      assert Happens(es[k], events[k], es[k + 1]);
      match events[k] {
        case Local(s) => ActConserves(es[k], s);
        case Incoming(p) => HandleConserves(es[k], p);
      }
      k := k + 1;
    }
  }
}
