/**
 * Key exchange and cipher switching between two honest transports: the handshake state
 * machine of handshake.go over the two connection states of transport.go, as steps that
 * the reading goroutine, the key-exchange goroutine and any number of writers interleave.
 * Key exchange results, ciphers and packet contents are abstract values, and so is the rule
 * that picks algorithms from two KEXINITs.
 */
module Rekeying {
  import opened Words
  import opened Negotiation

  type Agreement = (KexInit, KexInit) -> Option<Algorithms>

  datatype Side = Client | Server

  /** What goes over the wire, before sealing. Msg is the method-specific exchange message of either side. */
  datatype Packet = App(data: Octets) | Init(k: KexInit) | Msg(m: Octets) | NewKeys

  /** Everything a key exchange result is computed from. */
  datatype Transcript = Transcript(clientInit: KexInit, serverInit: KexInit, clientMsg: Octets, serverMsg: Octets)

  /** A packet cipher: the key material is determined by direction tag, algorithms, result and session id. */
  datatype Cipher = NoCipher | Keyed(tag: Side, algs: DirectionAlgorithms, result: Transcript, session: Transcript)

  /** What a packet is sealed or opened under. */
  datatype Seal = Seal(cipher: Cipher, seqNum: uint32)

  datatype Sealed = Sealed(p: Packet, seal: Seal)

  /** One direction of transport.go, with the one-place channel for the next cipher. */
  datatype Connection = Connection(cipher: Cipher, seqNum: uint32, next: Option<Cipher>)

  // ---------------------------------------------------------------- what a wire looks like

  /** How far the writer of a wire is in a key exchange. */
  datatype Stage = Fresh | Open | Inited | Msged | Broken

  function Advance(g: Stage, p: Packet): Stage {
    match p
    case App(_) => if g.Open? then Open else Broken
    case Init(_) => if g.Fresh? || g.Open? then Inited else Broken
    case Msg(_) => if g.Inited? then Msged else Broken
    case NewKeys => if g.Msged? then Open else Broken
  }

  /** A summary of the packets that have passed a point, in order. */
  datatype Tally = Tally(stage: Stage, inits: seq<KexInit>, msgs: seq<Octets>, apps: seq<Octets>, switches: nat,
      count: nat)

  const ZERO := Tally(Fresh, [], [], [], 0, 0)

  function Count(t: Tally, p: Packet): Tally {
    var u := t.(stage := Advance(t.stage, p), count := t.count + 1);
    match p
    case App(data) => u.(apps := t.apps + [data])
    case Init(k) => u.(inits := t.inits + [k])
    case Msg(m) => u.(msgs := t.msgs + [m])
    case NewKeys => u.(switches := t.switches + 1)
  }

  function CountAll(t: Tally, q: seq<Sealed>): Tally
    decreases |q|
  {
    if q == [] then t else CountAll(Count(t, q[0].p), q[1..])
  }

  lemma {:induction false} CountLast(t: Tally, q: seq<Sealed>, s: Sealed)
    ensures CountAll(t, q + [s]) == Count(CountAll(t, q), s.p)
    decreases |q|
  {
    if q == [] {
      assert q + [s] == [s];
    } else {
      assert (q + [s])[1..] == q[1..] + [s];
      CountLast(Count(t, q[0].p), q[1..], s);
    }
  }

  /** In a wire that follows the protocol the stage says how the counts compare. */
  predicate Regular(t: Tally) {
    && !t.stage.Broken?
    && |t.inits| == t.switches + (if t.stage.Inited? || t.stage.Msged? then 1 else 0)
    && |t.msgs| == t.switches + (if t.stage.Msged? then 1 else 0)
    && (t.stage.Fresh? <==> t.count == 0)
    && (t.stage.Open? ==> t.switches > 0)
    && (t.stage.Fresh? ==> t.switches == 0)
  }

  // ---------------------------------------------------------------- one side

  /** Where the reading and key-exchange goroutines are. */
  datatype Phase =
    | Idle
    | GotInit(other: KexInit)
    | AwaitMsg(other: KexInit, mine: Octets)
    | MustReply(other: KexInit, theirs: Octets)
    | Agreed(result: Transcript)
    | AwaitNewKeys
    | Finishing(next: Option<KexInit>)

  /**
   * One side. `log`, `sent` and `received` record what it has written and read, `accepted` the
   * application packets it took, and `results` the key exchanges it went through.
   */
  datatype Endpoint = Endpoint(
    side: Side, config: Config, phase: Phase,
    sentInit: Option<KexInit>, pending: seq<Octets>, established: bool,
    writer: Connection, reader: Connection, session: Option<Transcript>,
    log: seq<Sealed>, sent: Tally, received: Tally, accepted: seq<Octets>, results: seq<Transcript>)

  const PLAIN := Connection(NoCipher, 0, None)

  function NewEndpoint(side: Side, config: Config): Endpoint {
    Endpoint(side, config, Idle, None, [], false, PLAIN, PLAIN, None, [], ZERO, ZERO, [], [])
  }

  function Other(s: Side): Side {
    if s.Client? then Server else Client
  }

  /** A step's new state and packets, or an error, or the panic of the source. */
  datatype Outcome = Next(e: Endpoint, out: seq<Sealed>) | Fault

  /** connectionState.writePacket; the source panics when NEWKEYS finds no cipher. */
  function Push(e: Endpoint, p: Packet): Outcome {
    var w := e.writer;
    if p.NewKeys? && w.next.None? then Fault
    else
      var w' := if p.NewKeys? then Connection(w.next.value, U32(w.seqNum + 1), None)
          else w.(seqNum := U32(w.seqNum + 1));
      var s := Sealed(p, Seal(w.cipher, w.seqNum));
      Next(e.(writer := w', log := e.log + [s], sent := Count(e.sent, p)), [s])
  }

  /** connectionState.readPacket: opening fails under another cipher or number, and on a stray NEWKEYS. */
  function Pull(e: Endpoint, s: Sealed): Outcome {
    var r := e.reader;
    if s.seal != Seal(r.cipher, r.seqNum) then Fault
    else if s.p.NewKeys? && r.next.None? then Fault
    else
      var r' := if s.p.NewKeys? then Connection(r.next.value, U32(r.seqNum + 1), None)
          else r.(seqNum := U32(r.seqNum + 1));
      Next(e.(reader := r', received := Count(e.received, s.p)), [])
  }

  /** What was agreed for the direction away from a side. */
  function Outward(algs: Algorithms, side: Side): DirectionAlgorithms {
    if side.Client? then algs.w else algs.r
  }

  /** What a side writes with and reads with: prepareKeyChange takes algs.w and algs.r, whatever the side. */
  function WritesWith(e: Endpoint, algs: Algorithms): DirectionAlgorithms {
    if e.config.conforming then Outward(algs, e.side) else algs.w
  }

  function ReadsWith(e: Endpoint, algs: Algorithms): DirectionAlgorithms {
    if e.config.conforming then Outward(algs, Other(e.side)) else algs.r
  }

  /** prepareKeyChange, here and in a peer that conforms. */
  function Prepare(e: Endpoint, algs: Algorithms, result: Transcript): Outcome {
    var session := if e.session.None? then result else e.session.value;
    if e.reader.next.Some? || e.writer.next.Some? then Fault
    else Next(e.(session := Some(session), results := e.results + [result],
                 reader := e.reader.(next := Some(Keyed(Other(e.side), ReadsWith(e, algs), result, session))),
                 writer := e.writer.(next := Some(Keyed(e.side, WritesWith(e, algs), result, session)))), [])
  }

  datatype Step =
    | Submit(data: Octets)
    | SendInit(cookie: nat)
    | Receive
    | Enter(m: Octets)
    | Reply(m: Octets)
    | SwitchKeys
    | Finish
    | Flush

  /** The algorithms this side computes from its own KEXINIT and the other's. */
  function Negotiate(agree: Agreement, e: Endpoint, other: KexInit): Option<Algorithms>
    requires e.sentInit.Some?
  {
    if e.side.Client? then agree(e.sentInit.value, other) else agree(other, e.sentInit.value)
  }

  /** Somebody is reading; the reader that has a KEXINIT waits for the loop that pushes queued packets. */
  predicate Reads(phase: Phase) {
    phase.Idle? || phase.AwaitMsg? || phase.AwaitNewKeys? || phase == Finishing(None)
  }

  /**
   * Writers start after waitSession, that is after the first exchange. An exchange goes on only
   * if algorithms are agreed; this model covers the runs in which they are.
   */
  predicate Enabled(agree: Agreement, e: Endpoint, inbox: seq<Sealed>, s: Step) {
    match s
    case Submit(_) => e.established
    case SendInit(_) => (e.phase.Idle? || e.phase.GotInit?) && e.sentInit.None?
    case Receive => Reads(e.phase) && inbox != []
    case Enter(_) => e.phase.GotInit? && e.sentInit.Some? && Negotiate(agree, e, e.phase.other).Some?
    case Reply(_) => e.phase.MustReply? && e.sentInit.Some?
    case SwitchKeys => e.phase.Agreed? && agree(e.phase.result.clientInit, e.phase.result.serverInit).Some?
    case Finish => e.phase.Finishing? && e.pending == []
    case Flush => e.phase.Finishing? && e.pending != []
  }

  /** handshakeTransport.writePacket for an application packet. */
  function SubmitStep(e: Endpoint, data: Octets): Outcome {
    var e' := e.(accepted := e.accepted + [data]);
    if e.sentInit.Some? then Next(e'.(pending := e.pending + [data]), []) else Push(e', App(data))
  }

  /**
   * A packet for the reading goroutine; the first must be a KEXINIT. A KEXINIT that comes while the last
   * exchange is still being finished waits for kexLoop.
   */
  function ReceiveIdle(e: Endpoint, p: Packet): Outcome {
    match p
    case App(data) => if e.received.count == 1 then Fault else Next(e, [])
    case Init(k) => Next(e.(phase := if e.phase.Finishing? then Finishing(Some(k)) else GotInit(k)), [])
    case _ => Fault
  }

  /** A packet for whichever goroutine is reading; the key exchange insists on the type it expects. */
  function ReceiveStep(e: Endpoint, s: Sealed): Outcome
    requires Reads(e.phase)
  {
    var r := Pull(e, s);
    if r.Fault? then Fault
    else match e.phase
      case AwaitMsg(other, mine) =>
        if !s.p.Msg? || e.sentInit.None? then Fault
        else if e.side.Client? then Next(r.e.(phase := Agreed(Transcript(e.sentInit.value, other, mine, s.p.m))), [])
        else Next(r.e.(phase := MustReply(other, s.p.m)), [])
      case AwaitNewKeys =>
        if s.p.NewKeys? then Next(r.e.(phase := Finishing(None), established := true), []) else Fault
      case _ => ReceiveIdle(r.e, s.p)
  }

  /** The packets that whoever is reading waits for; the very first must be a KEXINIT. */
  predicate Awaited(e: Endpoint, p: Packet) {
    match e.phase
    case AwaitMsg(_, _) => p.Msg? && e.sentInit.Some?
    case AwaitNewKeys => p.NewKeys?
    case _ => p.Init? || (p.App? && e.received.count > 0)
  }

  /**
   * Exactly which packets end the connection: those that were sealed otherwise than the reader opens them, NEWKEYS
   * without a cipher to switch to, and those that nobody waits for. All others move the reader on by one packet.
   */
  lemma RefusedIff(e: Endpoint, s: Sealed)
    requires Reads(e.phase)
    ensures ReceiveStep(e, s).Fault? <==>
            || s.seal.cipher != e.reader.cipher || s.seal.seqNum != e.reader.seqNum
            || (s.p.NewKeys? && e.reader.next == None) || !Awaited(e, s.p)
    ensures ReceiveStep(e, s).Next? ==>
            var f := ReceiveStep(e, s).e;
            && f.reader.cipher == (if s.p.NewKeys? then e.reader.next.value else e.reader.cipher)
            && f.reader.seqNum == (if e.reader.seqNum == 0xffff_ffff then 0 else e.reader.seqNum + 1)
            && f.writer == e.writer && ReceiveStep(e, s).out == []
  {
  }

  /** prepareKeyChange and the NEWKEYS that follows it at once. */
  function SwitchStep(agree: Agreement, e: Endpoint): Outcome
    requires Enabled(agree, e, [], SwitchKeys)
  {
    var result := e.phase.result;
    var r := Prepare(e, agree(result.clientInit, result.serverInit).value, result);
    if r.Fault? then Fault else Push(r.e.(phase := AwaitNewKeys), NewKeys)
  }

  /** Exactly when keys cannot be prepared: a cipher of the exchange before still waits to be switched to. */
  lemma SwitchFailsIff(agree: Agreement, e: Endpoint)
    requires Enabled(agree, e, [], SwitchKeys)
    ensures SwitchStep(agree, e).Fault? <==> e.reader.next.Some? || e.writer.next.Some?
  {
  }

  /** sendKexInit when none has been sent. */
  function SendInitStep(e: Endpoint, cookie: nat): Outcome {
    var k := MakeInit(e.config, cookie);
    Push(e.(sentInit := Some(k)), Init(k))
  }

  /** The client opens the method-specific exchange; the server waits for it. */
  function EnterStep(e: Endpoint, m: Octets): Outcome
    requires e.phase.GotInit?
  {
    var e' := e.(phase := AwaitMsg(e.phase.other, m));
    if e.side.Client? then Push(e', Msg(m)) else Next(e', [])
  }

  function ReplyStep(e: Endpoint, m: Octets): Outcome
    requires e.phase.MustReply? && e.sentInit.Some?
  {
    Push(e.(phase := Agreed(Transcript(e.phase.other, e.sentInit.value, e.phase.theirs, m))), Msg(m))
  }

  /** One round of the loop that pushes the queued packets. */
  function FlushStep(e: Endpoint): Outcome
    requires e.pending != []
  {
    Push(e.(pending := e.pending[1..]), App(e.pending[0]))
  }

  function FinishStep(e: Endpoint): Outcome
    requires e.phase.Finishing?
  {
    Next(e.(phase := if e.phase.next.None? then Idle else GotInit(e.phase.next.value), sentInit := None), [])
  }

  /**
   * A step of one side. The end of kexLoop, which releases the reader and then holds the lock while it
   * pushes the queued packets, appears as Flush steps closed by Finish; what a writer does in between is
   * queued behind them.
   */
  function Act(agree: Agreement, e: Endpoint, inbox: seq<Sealed>, s: Step): Outcome
    requires Enabled(agree, e, inbox, s)
  {
    match s
    case Submit(data) => SubmitStep(e, data)
    case SendInit(cookie) => SendInitStep(e, cookie)
    case Receive => ReceiveStep(e, inbox[0])
    case Enter(m) => EnterStep(e, m)
    case Reply(m) => ReplyStep(e, m)
    case SwitchKeys => SwitchStep(agree, e)
    case Flush => FlushStep(e)
    case Finish => FinishStep(e)
  }

  // ---------------------------------------------------------------- runs

  datatype System = System(left: Endpoint, right: Endpoint, toRight: seq<Sealed>, toLeft: seq<Sealed>, failed: bool)

  function Mirror(s: System): System {
    System(s.right, s.left, s.toLeft, s.toRight, s.failed)
  }

  /** The system after a step of the left side. */
  function After(s: System, r: Outcome): System {
    if r.Fault? then s.(failed := true) else s.(left := r.e, toRight := s.toRight + r.out)
  }

  predicate LeftMoves(agree: Agreement, s: System, a: Step, s': System) {
    && !s.failed && Enabled(agree, s.left, s.toLeft, a)
    && s' == After(if a.Receive? then s.(toLeft := s.toLeft[1..]) else s, Act(agree, s.left, s.toLeft, a))
  }

  predicate Moves(agree: Agreement, s: System, onLeft: bool, a: Step, s': System) {
    if onLeft then LeftMoves(agree, s, a, s') else LeftMoves(agree, Mirror(s), a, Mirror(s'))
  }

  datatype Run = Run(client: Config, server: Config, states: seq<System>, onLeft: seq<bool>, steps: seq<Step>)

  function Start(client: Config, server: Config): System {
    System(NewEndpoint(Client, client), NewEndpoint(Server, server), [], [], false)
  }

  predicate IsRun(agree: Agreement, r: Run) {
    && |r.states| == |r.steps| + 1 == |r.onLeft| + 1
    && r.states[0] == Start(r.client, r.server)
    && forall k :: 0 <= k < |r.steps| ==> Moves(agree, r.states[k], r.onLeft[k], r.steps[k], r.states[k + 1])
  }

  // ---------------------------------------------------------------- what an endpoint keeps

  function Last<T>(s: seq<T>): T
    requires s != []
  {
    s[|s| - 1]
  }

  predicate HasResult(e: Endpoint, j: nat) {
    j < |e.sent.inits| && j < |e.received.inits| && j < |e.sent.msgs| && j < |e.received.msgs|
  }

  /** The result of the j-th exchange, read off what was sent and received. */
  function ResultAt(e: Endpoint, j: nat): Transcript
    requires HasResult(e, j)
  {
    if e.side.Client? then Transcript(e.sent.inits[j], e.received.inits[j], e.sent.msgs[j], e.received.msgs[j])
    else Transcript(e.received.inits[j], e.sent.inits[j], e.received.msgs[j], e.sent.msgs[j])
  }

  predicate HasAlgorithms(agree: Agreement, t: Transcript) {
    agree(t.clientInit, t.serverInit).Some?
  }

  function AlgorithmsOf(agree: Agreement, t: Transcript): Algorithms
    requires HasAlgorithms(agree, t)
  {
    agree(t.clientInit, t.serverInit).value
  }

  /** The server uses what was agreed for each direction, or that is the same for both. */
  ghost predicate Fair(agree: Agreement, client: Config, server: Config) {
    server.conforming ||
    forall i, j :: var algs := agree(MakeInit(client, i), MakeInit(server, j)); algs.Some? ==>
        algs.value.w == algs.value.r
  }

  ghost predicate FairFor(agree: Agreement, e: Endpoint, other: Config) {
    if e.side.Client? then Fair(agree, e.config, other) else Fair(agree, other, e.config)
  }

  predicate AllMade(ks: seq<KexInit>, c: Config) {
    forall k <- ks :: k == MakeInit(c, k.cookie)
  }

  predicate ResultsOk(agree: Agreement, e: Endpoint) {
    && |e.results| == e.sent.switches
    && (forall j :: 0 <= j < |e.results| ==>
         HasResult(e, j) && e.results[j] == ResultAt(e, j) && HasAlgorithms(agree, e.results[j]))
    && e.session == (if e.results == [] then None else Some(e.results[0]))
  }

  /** Phase and progress of the two wires fit together. */
  predicate PhaseOk(agree: Agreement, e: Endpoint) {
    var own, theirs := e.sent, e.received;
    && Regular(own) && Regular(theirs)
    && own.switches == theirs.switches + (if e.phase.AwaitNewKeys? then 1 else 0)
    && (e.sentInit.None? <==> (e.phase.Idle? || e.phase.GotInit?) && !own.stage.Inited?)
    && (e.sentInit.Some? ==> own.inits != [] && e.sentInit.value == Last(own.inits))
    && match e.phase
       case Idle => !own.stage.Msged? && (theirs.stage.Fresh? || theirs.stage.Open?)
       case GotInit(o) => !own.stage.Msged? && theirs.stage.Inited? && o == Last(theirs.inits)
       case AwaitMsg(o, m) =>
         && theirs.stage.Inited? && o == Last(theirs.inits) && Negotiate(agree, e, o).Some?
         && if e.side.Client? then own.stage.Msged? && m == Last(own.msgs) else own.stage.Inited?
       case MustReply(o, m) =>
         && e.side.Server? && own.stage.Inited? && theirs.stage.Msged? && Negotiate(agree, e, o).Some?
         && o == Last(theirs.inits) && m == Last(theirs.msgs)
       case Agreed(t) =>
         && own.stage.Msged? && theirs.stage.Msged? && HasAlgorithms(agree, t)
         && HasResult(e, own.switches) && t == ResultAt(e, own.switches)
       case AwaitNewKeys => own.stage.Open? && theirs.stage.Msged?
       case Finishing(o) =>
         && own.stage.Open?
         && if o.None? then theirs.stage.Open? else theirs.stage.Inited? && o.value == Last(theirs.inits)
  }

  predicate AllAgreed(agree: Agreement, results: seq<Transcript>) {
    forall i :: 0 <= i < |results| ==> HasAlgorithms(agree, results[i])
  }

  /** The cipher in use after n switches in the direction away from a side. */
  function CipherAt(agree: Agreement, tag: Side, results: seq<Transcript>, n: nat): Cipher
    requires n <= |results| && AllAgreed(agree, results)
  {
    if n == 0 then NoCipher
    else Keyed(tag, Outward(AlgorithmsOf(agree, results[n - 1]), tag), results[n - 1], results[0])
  }

  predicate CiphersOk(agree: Agreement, e: Endpoint) {
    && AllAgreed(agree, e.results) && e.received.switches <= |e.results| == e.sent.switches
    && e.writer == Connection(CipherAt(agree, e.side, e.results, |e.results|), U32(e.sent.count), None)
    && e.reader.cipher == CipherAt(agree, Other(e.side), e.results, e.received.switches)
    && e.reader.seqNum == U32(e.received.count)
    && e.reader.next == (if e.phase.AwaitNewKeys? then Some(CipherAt(agree, Other(e.side), e.results, |e.results|))
        else None)
  }

  predicate AppsOk(e: Endpoint) {
    && e.sent.apps + e.pending == e.accepted
    && (e.pending != [] ==> e.sentInit.Some?)
    && (e.established ==> e.sent.switches > 0)
  }

  /** What a write leaves alone: everything but the phase and the application packets. */
  predicate Core(agree: Agreement, e: Endpoint) {
    ResultsOk(agree, e) && CiphersOk(agree, e) && e.sent == CountAll(ZERO, e.log)
  }

  /** The rest: the phase, the application packets, and the lists that were sent. */
  predicate Progress(agree: Agreement, e: Endpoint) {
    PhaseOk(agree, e) && AppsOk(e) && AllMade(e.sent.inits, e.config)
  }

  // ---------------------------------------------------------------- each step keeps it

  /** Results read off the tallies stay as the tallies grow. */
  lemma ResultsStay(agree: Agreement, e: Endpoint, e': Endpoint)
    requires ResultsOk(agree, e)
    requires e.sent.inits <= e'.sent.inits && e.sent.msgs <= e'.sent.msgs
    requires e.received.inits <= e'.received.inits && e.received.msgs <= e'.received.msgs
    requires e'.results == e.results && e'.side == e.side && e'.session == e.session
             && e'.sent.switches == e.sent.switches
    ensures ResultsOk(agree, e')
  {
    forall j | 0 <= j < |e.results| ensures HasResult(e', j) && e.results[j] == ResultAt(e', j) {
      assert HasResult(e, j);
    }
  }

  predicate SameCore(e: Endpoint, f: Endpoint) {
    && e.side == f.side && e.writer == f.writer && e.reader == f.reader && e.session == f.session
    && e.log == f.log && e.sent == f.sent && e.received == f.received && e.results == f.results
    && (e.phase.AwaitNewKeys? <==> f.phase.AwaitNewKeys?)
  }

  lemma SameCoreKeeps(agree: Agreement, e: Endpoint, f: Endpoint)
    requires Core(agree, e) && SameCore(e, f)
    ensures Core(agree, f)
  {
    ResultsStay(agree, e, f);
  }

  lemma PushKeepsCore(agree: Agreement, e: Endpoint, p: Packet)
    requires Core(agree, e) && !p.NewKeys?
    ensures Core(agree, Push(e, p).e)
  {
    PushKeepsCiphers(agree, e, p);
    ResultsStay(agree, e, Push(e, p).e);
    CountLast(ZERO, e.log, Push(e, p).out[0]);
  }

  lemma PushKeepsCiphers(agree: Agreement, e: Endpoint, p: Packet)
    requires CiphersOk(agree, e) && !p.NewKeys?
    ensures CiphersOk(agree, Push(e, p).e)
  {
  }

  /** A step that writes one packet other than NEWKEYS, or none. */
  lemma WriteKeepsCore(agree: Agreement, e: Endpoint, f: Endpoint, p: Packet)
    requires Core(agree, e) && SameCore(e, f) && !p.NewKeys?
    ensures Core(agree, f) && Core(agree, Push(f, p).e)
  {
    SameCoreKeeps(agree, e, f);
    PushKeepsCore(agree, f, p);
  }

  lemma SubmitProgress(agree: Agreement, e: Endpoint, data: Octets)
    requires Progress(agree, e) && e.established
    ensures Progress(agree, SubmitStep(e, data).e)
  {
    if e.sentInit.Some? {
      assert e.sent.apps + (e.pending + [data]) == e.sent.apps + e.pending + [data];
    } else {
      assert e.pending == [];
    }
  }

  lemma SendInitProgress(agree: Agreement, e: Endpoint, cookie: nat)
    requires Progress(agree, e) && (e.phase.Idle? || e.phase.GotInit?) && e.sentInit.None?
    ensures Progress(agree, SendInitStep(e, cookie).e)
  {
  }

  lemma EnterProgress(agree: Agreement, e: Endpoint, m: Octets)
    requires Progress(agree, e) && e.phase.GotInit? && e.sentInit.Some? && Negotiate(agree, e, e.phase.other).Some?
    ensures Progress(agree, EnterStep(e, m).e)
  {
  }

  lemma ReplyProgress(agree: Agreement, e: Endpoint, m: Octets)
    requires Progress(agree, e) && e.phase.MustReply?
    ensures Progress(agree, ReplyStep(e, m).e)
  {
  }

  lemma FlushProgress(agree: Agreement, e: Endpoint)
    requires Progress(agree, e) && e.phase.Finishing? && e.pending != []
    ensures Progress(agree, FlushStep(e).e)
  {
    assert e.sent.apps + e.pending == e.sent.apps + [e.pending[0]] + e.pending[1..];
  }

  lemma FinishProgress(agree: Agreement, e: Endpoint)
    requires Progress(agree, e) && e.phase.Finishing? && e.pending == []
    ensures Progress(agree, FinishStep(e).e)
  {
  }

  lemma SwitchProgress(agree: Agreement, e: Endpoint)
    requires Progress(agree, e) && e.phase.Agreed? && e.reader.next.None? && e.writer.next.None?
    ensures SwitchStep(agree, e).Next? && Progress(agree, SwitchStep(agree, e).e)
  {
  }

  lemma SwitchKeepsResults(agree: Agreement, e: Endpoint)
    requires ResultsOk(agree, e) && PhaseOk(agree, e) && e.phase.Agreed?
    requires e.reader.next.None? && e.writer.next.None?
    ensures ResultsOk(agree, SwitchStep(agree, e).e)
  {
    var e' := SwitchStep(agree, e).e;
    assert e'.results == e.results + [e.phase.result];
    forall j | 0 <= j < |e'.results|
      ensures HasResult(e', j) && e'.results[j] == ResultAt(e', j) && HasAlgorithms(agree, e'.results[j])
    {
      if j < |e.results| {
        assert HasResult(e, j);
      }
    }
  }

  /** NEWKEYS finds its cipher, and the two ciphers of an exchange differ in their tag only. */
  lemma SwitchKeepsCiphers(agree: Agreement, e: Endpoint)
    requires CiphersOk(agree, e) && e.phase.Agreed? && HasAlgorithms(agree, e.phase.result)
    requires e.session == (if e.results == [] then None else Some(e.results[0]))
    requires UsesAgreed(e, AlgorithmsOf(agree, e.phase.result))
    ensures SwitchStep(agree, e).Next? && CiphersOk(agree, SwitchStep(agree, e).e)
  {
    CiphersAfterSwitch(agree, e, SwitchStep(agree, e).e, e.phase.result);
  }

  lemma CiphersAfterSwitch(agree: Agreement, e: Endpoint, f: Endpoint, t: Transcript)
    requires CiphersOk(agree, e) && !e.phase.AwaitNewKeys? && HasAlgorithms(agree, t) && f.phase.AwaitNewKeys?
    requires f.side == e.side && f.results == e.results + [t] && f.received == e.received
    requires f.sent.switches == e.sent.switches + 1 && f.sent.count == e.sent.count + 1
    requires var first := if e.results == [] then t else e.results[0];
             var algs := AlgorithmsOf(agree, t);
             && f.writer == Connection(Keyed(e.side, Outward(algs, e.side), t, first), U32(e.writer.seqNum + 1), None)
             && f.reader == e.reader.(next := Some(Keyed(Other(e.side), Outward(algs, Other(e.side)), t, first)))
    ensures CiphersOk(agree, f)
  {
    NextCipher(agree, e.side, e.results, t);
    NextCipher(agree, Other(e.side), e.results, t);
    assert CipherAt(agree, Other(e.side), f.results, e.received.switches) == e.reader.cipher;
  }

  /** The cipher after one more exchange. */
  lemma NextCipher(agree: Agreement, tag: Side, results: seq<Transcript>, t: Transcript)
    requires AllAgreed(agree, results) && HasAlgorithms(agree, t)
    ensures var more := results + [t];
            && AllAgreed(agree, more)
            && CipherAt(agree, tag, more, |more|) ==
                Keyed(tag, Outward(AlgorithmsOf(agree, t), tag), t, if results == [] then t else results[0])
  {
  }

  /** A side writes and reads with what was agreed for the two directions. */
  predicate UsesAgreed(e: Endpoint, algs: Algorithms) {
    WritesWith(e, algs) == Outward(algs, e.side) && ReadsWith(e, algs) == Outward(algs, Other(e.side))
  }

  lemma AgreedIsFair(agree: Agreement, e: Endpoint, other: Config)
    requires FairFor(agree, e, other) && PhaseOk(agree, e) && e.phase.Agreed?
    requires AllMade(e.sent.inits, e.config) && AllMade(e.received.inits, other)
    ensures UsesAgreed(e, AlgorithmsOf(agree, e.phase.result))
  {
    var own, theirs := e.sent.inits[e.sent.switches], e.received.inits[e.sent.switches];
    assert own in e.sent.inits && theirs in e.received.inits;
  }

  lemma SwitchKeepsCore(agree: Agreement, e: Endpoint, other: Config)
    requires FairFor(agree, e, other) && Core(agree, e) && PhaseOk(agree, e) && e.phase.Agreed?
    requires AllMade(e.sent.inits, e.config) && AllMade(e.received.inits, other)
    ensures SwitchStep(agree, e).Next? && Core(agree, SwitchStep(agree, e).e)
  {
    AgreedIsFair(agree, e, other);
    SwitchKeepsCiphers(agree, e);
    SwitchKeepsResults(agree, e);
    CountLast(ZERO, e.log, SwitchStep(agree, e).out[0]);
  }

  /** The packet at the head of the inbox can be opened and is one that the protocol allows here. */
  predicate Fits(e: Endpoint, s: Sealed) {
    && s.seal == Seal(e.reader.cipher, e.reader.seqNum)
    && (e.reader.next.Some? <==> e.phase.AwaitNewKeys?)
    && !Advance(e.received.stage, s.p).Broken?
  }

  lemma ReceiveIdleProgress(agree: Agreement, e: Endpoint, s: Sealed)
    requires Progress(agree, e) && (e.phase.Idle? || e.phase == Finishing(None)) && Fits(e, s)
    ensures ReceiveStep(e, s).Next? && Progress(agree, ReceiveStep(e, s).e)
  {
    if e.phase.Idle? {
      if s.p.Init? {} else {}
    } else {
      if s.p.Init? {} else {}
    }
  }

  lemma ReceiveMsgProgress(agree: Agreement, e: Endpoint, s: Sealed)
    requires Progress(agree, e) && e.phase.AwaitMsg? && Fits(e, s)
    ensures ReceiveStep(e, s).Next? && Progress(agree, ReceiveStep(e, s).e)
  {
    if e.side.Client? {} else {}
  }

  lemma ReceiveNewKeysProgress(agree: Agreement, e: Endpoint, s: Sealed)
    requires Progress(agree, e) && e.phase.AwaitNewKeys? && Fits(e, s)
    ensures ReceiveStep(e, s).Next? && Progress(agree, ReceiveStep(e, s).e)
  {
  }

  lemma ReceiveProgress(agree: Agreement, e: Endpoint, s: Sealed)
    requires Progress(agree, e) && Reads(e.phase) && Fits(e, s)
    ensures ReceiveStep(e, s).Next? && Progress(agree, ReceiveStep(e, s).e)
  {
    match e.phase
    case AwaitMsg(_, _) => ReceiveMsgProgress(agree, e, s);
    case AwaitNewKeys => ReceiveNewKeysProgress(agree, e, s);
    case _ => ReceiveIdleProgress(agree, e, s);
  }

  lemma PullKeepsCore(agree: Agreement, e: Endpoint, s: Sealed)
    requires Core(agree, e) && !s.p.NewKeys? && Pull(e, s).Next?
    ensures Core(agree, Pull(e, s).e)
  {
    PullKeepsCiphers(agree, e, s);
    ResultsStay(agree, e, Pull(e, s).e);
  }

  lemma PullKeepsCiphers(agree: Agreement, e: Endpoint, s: Sealed)
    requires CiphersOk(agree, e) && !s.p.NewKeys? && Pull(e, s).Next?
    ensures CiphersOk(agree, Pull(e, s).e)
  {
  }

  lemma PullNewKeysKeepsCore(agree: Agreement, e: Endpoint, s: Sealed)
    requires Core(agree, e) && e.phase.AwaitNewKeys? && s.p.NewKeys? && Pull(e, s).Next?
    requires e.sent.switches == e.received.switches + 1
    ensures Core(agree, Pull(e, s).e.(phase := Finishing(None), established := true))
  {
    var f := Pull(e, s).e.(phase := Finishing(None), established := true);
    PullNewKeysKeepsCiphers(agree, e, s);
    ResultsStay(agree, e, f);
  }

  lemma PullNewKeysKeepsCiphers(agree: Agreement, e: Endpoint, s: Sealed)
    requires CiphersOk(agree, e) && e.phase.AwaitNewKeys? && s.p.NewKeys? && Pull(e, s).Next?
    requires e.sent.switches == e.received.switches + 1
    ensures CiphersOk(agree, Pull(e, s).e.(phase := Finishing(None), established := true))
  {
  }

  lemma ReceiveKeepsCore(agree: Agreement, e: Endpoint, s: Sealed)
    requires Core(agree, e) && Reads(e.phase)
    requires ReceiveStep(e, s).Next?
    requires e.phase.AwaitNewKeys? ==> e.sent.switches == e.received.switches + 1
    ensures Core(agree, ReceiveStep(e, s).e)
  {
    if e.phase.AwaitNewKeys? {
      PullNewKeysKeepsCore(agree, e, s);
    } else {
      ReceiveOtherKeepsCore(agree, e, s);
    }
  }

  lemma ReceiveOtherKeepsCore(agree: Agreement, e: Endpoint, s: Sealed)
    requires Core(agree, e) && Reads(e.phase) && !e.phase.AwaitNewKeys? && ReceiveStep(e, s).Next?
    ensures Core(agree, ReceiveStep(e, s).e)
  {
    ReceiveIsPull(e, s);
    PullKeepsCore(agree, e, s);
    SameCoreKeeps(agree, Pull(e, s).e, ReceiveStep(e, s).e);
  }

  lemma ReceiveIsPull(e: Endpoint, s: Sealed)
    requires Reads(e.phase) && !e.phase.AwaitNewKeys? && ReceiveStep(e, s).Next?
    ensures !s.p.NewKeys? && Pull(e, s).Next? && SameCore(Pull(e, s).e, ReceiveStep(e, s).e)
  {
  }
}
