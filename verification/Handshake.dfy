/**
 * The write side of handshakeTransport: packets are queued between our KEXINIT and the end of
 * the key exchange. Each method is the body of a source function under the lock t.mu; the
 * connection below is a sequence of answers, one for each packet pushed. The second part runs
 * writers, the key exchange loop and the read loop against each other, one locked section a step.
 */
module Handshake {
  import opened Words

  const MSG_KEX_INIT := 20
  const MSG_NEW_KEYS := 21
  const PACKET_REKEY_THRESHOLD := 0x8000_0000

  datatype Answer = Accepted | Refused(text: string)

  /** How many of the packets the transport takes before it first refuses one. */
  function TakenBy(answers: seq<Answer>, n: nat): (k: nat)
    requires n <= |answers|
    ensures k <= n && (forall i :: 0 <= i < k ==> answers[i].Accepted?) && (k < n ==> answers[k].Refused?)
  {
    if n == 0 then 0
    else
      var k := TakenBy(answers, n - 1);
      if k == n - 1 && answers[k].Accepted? then n else k
  }

  function ErrorOf(a: Answer): Option<string> {
    if a.Accepted? then None else Some(a.text)
  }

  /** What the lock protects, and what was pushed. */
  datatype Side = Side(writeError: Option<string>, sentInit: bool, pending: seq<Octets>, wire: seq<Octets>)

  function Pushed(s: Side, p: Octets, a: Answer): seq<Octets> {
    if a.Accepted? then s.wire + [p] else s.wire
  }

  /** writePacket takes the packet: it is pushed or queued, and the writer is told that it was written. */
  predicate Takes(s: Side, p: Octets)
    requires |p| > 0
  {
    p[0] != MSG_KEX_INIT && p[0] != MSG_NEW_KEYS && s.writeError.None?
  }

  function Writes(s: Side, p: Octets, a: Answer): Side
    requires |p| > 0
  {
    if !Takes(s, p) then s
    else if s.sentInit then s.(pending := s.pending + [p])
    else s.(wire := Pushed(s, p, a), writeError := ErrorOf(a))
  }

  function Inits(s: Side, init: Octets, a: Answer): Side {
    if s.sentInit then s else s.(wire := Pushed(s, init, a), sentInit := a.Accepted?)
  }

  function Completes(s: Side, outcome: Option<string>, answers: seq<Answer>): Side
    requires |answers| == |s.pending|
  {
    Side(LeftBehind(outcome, answers), false, [], s.wire + s.pending[..TakenBy(answers, |answers|)])
  }

  /** The error that the end of an exchange leaves behind: each push of the flush overwrites it. */
  function LeftBehind(outcome: Option<string>, answers: seq<Answer>): Option<string> {
    var n := TakenBy(answers, |answers|);
    if answers == [] then outcome else if n < |answers| then ErrorOf(answers[n]) else None
  }

  /** recordWriteError: the first error stays. */
  function Records(s: Side, text: string): Side {
    if s.writeError.Some? then s else s.(writeError := Some(text))
  }

  class Transport {
    var writeError: Option<string>
    var sentInit: bool
    var pending: seq<Octets>
    var requestKex: bool
    var writePacketsLeft: nat
    var writeBytesLeft: int
    const rekeyBytes: nat
    ghost var wire: seq<Octets>
    /** The packets that writers have pushed since the last exchange, and their bytes. */
    ghost var packets: nat
    ghost var bytes: nat

    /** The thresholds count down from the last exchange on, and stop at the limit. */
    ghost predicate Counted()
      reads this
    {
      && writePacketsLeft == (if packets < PACKET_REKEY_THRESHOLD then PACKET_REKEY_THRESHOLD - packets else 0)
      && (if bytes < rekeyBytes then writeBytesLeft == rekeyBytes - bytes else writeBytesLeft <= 0)
    }

    ghost function Value(): Side
      reads this
    {
      Side(writeError, sentInit, pending, wire)
    }

    constructor (rekeyBytes: nat)
      ensures writeError == None && !sentInit && pending == [] && wire == [] && requestKex
      ensures Counted() && packets == bytes == 0
    {
      this.rekeyBytes := rekeyBytes;
      writeError, sentInit, pending, requestKex := None, false, [], true;
      writePacketsLeft, writeBytesLeft := PACKET_REKEY_THRESHOLD, rekeyBytes;
      wire, packets, bytes := [], 0, 0;
    }

    method Push(p: Octets, a: Answer) returns (err: Option<string>)
      modifies this`wire
      ensures err == ErrorOf(a) && wire == if a.Accepted? then old(wire) + [p] else old(wire)
    {
      if a.Accepted? {
        wire := wire + [p];
      }
      err := ErrorOf(a);
    }

    /**
     * writePacket. A queued or pushed packet is reported as written even when the push fails; the
     * error is only remembered. Nothing is pushed while a key exchange is under way.
     */
    method WritePacket(p: Octets, a: Answer) returns (err: Option<string>)
      requires |p| > 0 && Counted()
      modifies this
      ensures Value() == Writes(old(Value()), p, a) && (err.None? <==> Takes(old(Value()), p))
      ensures sentInit == old(sentInit)
      ensures p[0] == MSG_KEX_INIT || p[0] == MSG_NEW_KEYS || old(writeError).Some? ==>
                err.Some? && wire == old(wire) && pending == old(pending) && writeError == old(writeError)
      ensures p[0] != MSG_KEX_INIT && p[0] != MSG_NEW_KEYS && old(writeError).None? ==>
                && err == None
                && (old(sentInit) ==> wire == old(wire) && pending == old(pending) + [p] && writeError == None)
                && (!old(sentInit) ==> pending == old(pending) && writeError == ErrorOf(a)
                                       && wire == old(wire) + if a.Accepted? then [p] else [])
      ensures var pushes := err == None && !old(sentInit);
              && Counted()
              && packets == old(packets) + (if pushes then 1 else 0)
              && bytes == old(bytes) + (if pushes then |p| else 0)
              && (requestKex <==>
                  old(requestKex) || (pushes && (old(packets) >= 0x8000_0000 || old(bytes) >= rekeyBytes)))
    {
      if p[0] == MSG_KEX_INIT {
        return Some("ssh: only handshakeTransport can send kexInit");
      }
      if p[0] == MSG_NEW_KEYS {
        return Some("ssh: only handshakeTransport can send newKeys");
      }
      if writeError.Some? {
        return writeError;
      }
      if sentInit {
        pending := pending + [p];
        return None;
      }
      if writeBytesLeft > 0 {
        writeBytesLeft := writeBytesLeft - |p|;
      } else {
        requestKex := true;
      }
      if writePacketsLeft > 0 {
        writePacketsLeft := writePacketsLeft - 1;
      } else {
        requestKex := true;
      }
      packets, bytes := packets + 1, bytes + |p|;
      var e := Push(p, a);
      if e.Some? {
        writeError := e;
      }
      return None;
    }

    /** sendKexInit: at most one KEXINIT per exchange. */
    method SendKexInit(init: Octets, a: Answer) returns (err: Option<string>)
      modifies this`wire, this`sentInit
      ensures Value() == Inits(old(Value()), init, a)
      ensures old(sentInit) ==> err == None && sentInit && wire == old(wire)
      ensures !old(sentInit) ==> err == ErrorOf(a) && sentInit == a.Accepted?
      ensures !old(sentInit) ==> wire == old(wire) + if a.Accepted? then [init] else []
    {
      if sentInit {
        return None;
      }
      err := Push(init, a);
      if err.None? {
        sentInit := true;
      }
    }

    /** recordWriteError, with which both loops stop the writers. */
    method RecordWriteError(text: string)
      modifies this`writeError
      ensures Value() == Records(old(Value()), text)
    {
      if writeError.None? {
        writeError := Some(text);
      }
    }

    /**
     * The end of a round of kexLoop: record the outcome of the exchange, reset the thresholds, tell
     * the reader, and push what was queued. The loop overwrites the recorded outcome.
     */
    method CompleteKex(outcome: Option<string>, answers: seq<Answer>) returns (done: Option<string>)
      requires |answers| == |pending|
      modifies this
      ensures Value() == Completes(old(Value()), outcome, answers)
      ensures done == outcome && !sentInit && !requestKex && pending == []
      ensures Counted() && packets == bytes == 0
      ensures var n := TakenBy(answers, |old(pending)|);
              && wire == old(wire) + old(pending)[..n]
              && writeError == if old(pending) == [] then outcome
                               else if n < |old(pending)| then ErrorOf(answers[n]) else None
    {
      writeError := outcome;
      sentInit := false;
      writePacketsLeft, writeBytesLeft := PACKET_REKEY_THRESHOLD, rekeyBytes;
      requestKex, packets, bytes := false, 0, 0;
      done := writeError;
      var i := 0;
      while i < |pending|
        invariant 0 <= i <= |pending| && pending == old(pending) && !sentInit && !requestKex
        invariant Counted() && packets == bytes == 0
        invariant forall j :: 0 <= j < i ==> answers[j].Accepted?
        invariant wire == old(wire) + old(pending)[..i]
        invariant writeError == if i == 0 then outcome else None
      {
        writeError := Push(pending[i], answers[i]);
        if writeError.Some? {
          break;
        }
        i := i + 1;
      }
      assert old(pending)[..|old(pending)|] == old(pending);
      TakenIs(answers, |old(pending)|, i);
      pending := [];
    }
  }

  lemma TakenIs(answers: seq<Answer>, n: nat, k: nat)
    requires k <= n <= |answers| && (forall i :: 0 <= i < k ==> answers[i].Accepted?) && (k < n ==> answers[k].Refused?)
    ensures TakenBy(answers, n) == k
  {
    assert TakenBy(answers, n) < n ==> answers[TakenBy(answers, n)].Refused?;
  }

  // ---------------------------------------------------------------- writers and loops against each other

  /** readLoop: it reads, waits for an exchange to end, has an error it has yet to record, or has ended. */
  datatype Reader = Reading | Waiting | Failing(text: string) | Stopped

  /** kexLoop: it serves requests, has a failed KEXINIT to record, or has ended. */
  datatype Loop = Serving | Broken(text: string) | Ended

  /** The write side, the two loops, and the packets for which a writer was told that they were written. */
  datatype State = State(side: Side, reader: Reader, loop: Loop, accepted: seq<Octets>)

  datatype Step =
    | Write(p: Octets, a: Answer)
    | SendInit(body: Octets, a: Answer)
    | RecordInit
    | KexArrives
    | Complete(outcome: Option<string>, answers: seq<Answer>)
    | GiveUp
    | Answered
    | ReadFails(text: string)
    | ReaderStops

  /** A step can be taken; kexLoop looks at the error before it enters an exchange. */
  predicate Enabled(s: State, x: Step) {
    match x
    case Write(p, _) => |p| > 0
    case SendInit(_, _) => s.loop.Serving?
    case RecordInit => s.loop.Broken?
    case KexArrives => s.reader.Reading?
    case Complete(_, answers) =>
      s.loop.Serving? && s.reader.Waiting? && s.side.sentInit && s.side.writeError.None?
          && |answers| == |s.side.pending|
    case GiveUp => s.loop.Serving? && (s.side.writeError.Some? || s.reader.Stopped?)
    case Answered => s.loop.Ended? && s.reader.Waiting?
    case ReadFails(_) => s.reader.Reading?
    case ReaderStops => s.reader.Failing?
  }

  function After(outcome: Option<string>): Reader {
    if outcome.Some? then Failing(outcome.value) else Reading
  }

  function Next(s: State, x: Step): State {
    if !Enabled(s, x) then s
    else
      match x
      case Write(p, a) =>
        s.(side := Writes(s.side, p, a), accepted := if Takes(s.side, p) then s.accepted + [p] else s.accepted)
      case SendInit(body, a) =>
        s.(side := Inits(s.side, [MSG_KEX_INIT] + body, a),
           loop := if s.side.sentInit || a.Accepted? then Serving else Broken(a.text))
      case RecordInit => s.(side := Records(s.side, s.loop.text), loop := Ended)
      case KexArrives => s.(reader := Waiting)
      case Complete(outcome, answers) => s.(side := Completes(s.side, outcome, answers), reader := After(outcome))
      case GiveUp => s.(loop := Ended)
      case Answered => s.(reader := After(s.side.writeError))
      case ReadFails(text) => s.(reader := Failing(text))
      case ReaderStops => s.(side := Records(s.side, s.reader.text), reader := Stopped)
  }

  function RunFrom(s: State, steps: seq<Step>): State
    decreases |steps|
  {
    if steps == [] then s else RunFrom(Next(s, steps[0]), steps[1..])
  }

  const FRESH := State(Side(None, false, [], []), Reading, Serving, [])

  /** The packets on the wire that are not a KEXINIT. */
  function Payload(wire: seq<Octets>): seq<Octets> {
    if wire == [] then []
    else
      var last := wire[|wire| - 1];
      Payload(wire[..|wire| - 1]) + if last != [] && last[0] == MSG_KEX_INIT then [] else [last]
  }

  lemma PayloadPush(wire: seq<Octets>, p: Octets)
    ensures Payload(wire + [p]) == Payload(wire) + if p != [] && p[0] == MSG_KEX_INIT then [] else [p]
  {
    assert (wire + [p])[..|wire|] == wire;
  }

  lemma {:induction false} PayloadAppend(wire: seq<Octets>, ps: seq<Octets>)
    requires forall i :: 0 <= i < |ps| ==> ps[i] != [] && ps[i][0] != MSG_KEX_INIT
    ensures Payload(wire + ps) == Payload(wire) + ps
  {
    if ps == [] {
      assert wire + ps == wire;
    } else {
      var n := |ps| - 1;
      PayloadAppend(wire, ps[..n]);
      PayloadPush(wire + ps[..n], ps[n]);
      assert wire + ps == wire + ps[..n] + [ps[n]];
      assert ps == ps[..n] + [ps[n]];
    }
  }

  /**
   * Packets are queued only during an exchange, the wire carries accepted packets in order, none is
   * missing as long as there is no error, and a reader or a loop that has ended has left an error.
   */
  predicate Inv(s: State) {
    && (s.side.pending != [] ==> s.side.sentInit)
    && (forall i :: 0 <= i < |s.side.pending| ==> s.side.pending[i] != [] && s.side.pending[i][0] != MSG_KEX_INIT)
    && Payload(s.side.wire) <= s.accepted
    && (s.side.writeError.None? ==> Payload(s.side.wire) + s.side.pending == s.accepted)
    && (s.reader.Stopped? || s.loop.Ended? ==> s.side.writeError.Some?)
  }

  lemma CompleteKeeps(s: State, outcome: Option<string>, answers: seq<Answer>)
    requires Inv(s) && Enabled(s, Complete(outcome, answers))
    ensures Inv(Next(s, Complete(outcome, answers)))
  {
    var n := TakenBy(answers, |answers|);
    PayloadAppend(s.side.wire, s.side.pending[..n]);
    assert s.side.pending == s.side.pending[..n] + s.side.pending[n..];
    assert Payload(s.side.wire) + s.side.pending[..n] <= s.accepted;
  }

  lemma WriteKeeps(s: State, p: Octets, a: Answer)
    requires Inv(s) && |p| > 0
    ensures Inv(Next(s, Write(p, a)))
  {
    var on, queued := Payload(s.side.wire), s.side.pending;
    if !Takes(s.side, p) {
      assert Next(s, Write(p, a)) == s;
    } else if s.side.sentInit {
      assert on + (queued + [p]) == on + queued + [p];
    } else {
      assert queued == [] && on + queued == on;
      PayloadPush(s.side.wire, p);
    }
  }

  lemma SendInitKeeps(s: State, body: Octets, a: Answer)
    requires Inv(s)
    ensures Inv(Next(s, SendInit(body, a)))
  {
    PayloadPush(s.side.wire, [MSG_KEX_INIT] + body);
  }

  /** A step of a loop that pushes nothing. */
  lemma LoopKeeps(s: State, x: Step)
    requires Inv(s) && !x.Write? && !x.SendInit? && !x.Complete?
    ensures Inv(Next(s, x))
  {
  }

  lemma StepKeeps(s: State, x: Step)
    requires Inv(s)
    ensures Inv(Next(s, x))
  {
    if Enabled(s, x) {
      match x {
        case Write(p, a) => WriteKeeps(s, p, a);
        case SendInit(body, a) => SendInitKeeps(s, body, a);
        case Complete(outcome, answers) => CompleteKeeps(s, outcome, answers);
        case _ => LoopKeeps(s, x);
      }
    }
  }

  lemma {:induction false} RunsKeep(s: State, steps: seq<Step>)
    requires Inv(s)
    ensures Inv(RunFrom(s, steps))
    decreases |steps|
  {
    if steps != [] {
      StepKeeps(s, steps[0]);
      RunsKeep(Next(s, steps[0]), steps[1..]);
    }
  }

  /**
   * In every run: what is on the wire are accepted packets in the order of acceptance, and while there
   * is no error every accepted packet is on the wire or queued behind it, failed exchanges included.
   */
  lemma AcceptedIsSentOrQueued(steps: seq<Step>)
    ensures var s := RunFrom(FRESH, steps);
            && Payload(s.side.wire) <= s.accepted
            && (s.side.writeError.None? ==> Payload(s.side.wire) + s.side.pending == s.accepted)
  {
    RunsKeep(FRESH, steps);
  }

  /** The writers are stopped: whatever happens next, they stay stopped, and none of their packets goes out. */
  lemma {:induction false} ErrorsStay(s: State, steps: seq<Step>)
    requires s.side.writeError.Some?
    ensures var t := RunFrom(s, steps);
            && t.side.writeError == s.side.writeError && t.accepted == s.accepted && t.side.pending == s.side.pending
            && Payload(t.side.wire) == Payload(s.side.wire)
    decreases |steps|
  {
    if steps != [] {
      var x := steps[0];
      if Enabled(s, x) && x.SendInit? {
        PayloadPush(s.side.wire, [MSG_KEX_INIT] + x.body);
      }
      ErrorsStay(Next(s, x), steps[1..]);
    }
  }

  // ---------------------------------------------------------------- a failed exchange

  /** Whatever the connection answers, the end of the exchange pushes nothing and refuses the next writer. */
  ghost predicate StopsAtOnce(s: State, text: string) {
    forall answers: seq<Answer> | |answers| == |s.side.pending| ::
      var t := Next(s, Complete(Some(text), answers)); t.side.wire == s.side.wire && t.side.writeError.Some?
  }

  /**
   * A failed exchange ought to stop the writers. At the moment it ends it does so exactly if nothing is
   * queued: otherwise queued packets are pushed behind the failure, and the flush clears the error.
   */
  lemma StopsAtOnceIff(s: State, text: string)
    requires s.loop.Serving? && s.reader.Waiting? && s.side.sentInit && s.side.writeError.None?
    ensures StopsAtOnce(s, text) <==> s.side.pending == []
  {
    var n := |s.side.pending|;
    var all := seq(n, _ => Accepted);
    TakenIs(all, n, n);
    var t := Next(s, Complete(Some(text), all));
    assert t.side.wire == s.side.wire + s.side.pending;
    if s.side.pending == [] {
      forall answers: seq<Answer> | |answers| == 0
        ensures var u := Next(s, Complete(Some(text), answers)); u.side.wire == s.side.wire && u.side.writeError.Some?
      {
        assert answers == all;
      }
    } else {
      assert t.side.wire != s.side.wire;
    }
  }

  /**
   * Once the connection has answered: the next packet is taken exactly if something was queued and all of it
   * was pushed.
   */
  lemma GapIff(s: State, text: string, answers: seq<Answer>, p: Octets)
    requires Enabled(s, Complete(Some(text), answers)) && |p| > 0 && p[0] != MSG_KEX_INIT && p[0] != MSG_NEW_KEYS
    ensures Takes(Next(s, Complete(Some(text), answers)).side, p) <==>
              s.side.pending != [] && forall i :: 0 <= i < |answers| ==> answers[i].Accepted?
  {
    var n := TakenBy(answers, |answers|);
    if n < |answers| {
      assert answers[n].Refused?;
    }
  }

  /** The reader carries the error, or has recorded it. */
  predicate Doomed(s: State, text: string) {
    s.reader == Failing(text) || (s.reader.Stopped? && s.side.writeError.Some?)
  }

  lemma DoomedStays(s: State, x: Step, text: string)
    requires Doomed(s, text)
    ensures Doomed(Next(s, x), text) && (s.reader.Stopped? ==> Next(s, x).reader.Stopped?)
    ensures x.ReaderStops? ==> Next(s, x).reader.Stopped?
    ensures x.Complete? ==> Next(s, x) == s
  {
  }

  lemma {:induction false} DoomedForever(s: State, steps: seq<Step>, text: string)
    requires Doomed(s, text)
    ensures Doomed(RunFrom(s, steps), text)
    ensures s.reader.Stopped? || ReaderStops in steps ==> RunFrom(s, steps).reader.Stopped?
    decreases |steps|
  {
    if steps != [] {
      DoomedStays(s, steps[0], text);
      DoomedForever(Next(s, steps[0]), steps[1..], text);
      assert ReaderStops in steps ==> steps[0] == ReaderStops || ReaderStops in steps[1..];
    }
  }

  /**
   * After a failed exchange no exchange completes any more, and the error is kept by the reader. From the
   * reader's next step on every writer is refused, whatever the flush did.
   */
  lemma FailedExchangeIsLast(s: State, text: string, answers: seq<Answer>, steps: seq<Step>, p: Octets)
    requires Enabled(s, Complete(Some(text), answers)) && |p| > 0
    ensures var t := RunFrom(Next(s, Complete(Some(text), answers)), steps);
            && Doomed(t, text)
            && (forall outcome, more :: !Enabled(t, Complete(outcome, more)))
            && (ReaderStops in steps ==> !Takes(t.side, p))
  {
    DoomedForever(Next(s, Complete(Some(text), answers)), steps, text);
  }

  /** kexLoop has to record that its KEXINIT did not go out, or has done so. */
  predicate Barred(s: State, text: string) {
    !s.side.sentInit && (s.loop == Broken(text) || (s.loop.Ended? && s.side.writeError.Some?))
  }

  lemma {:induction false} BarredForever(s: State, steps: seq<Step>, text: string)
    requires Barred(s, text)
    ensures Barred(RunFrom(s, steps), text)
    ensures s.loop.Ended? || RecordInit in steps ==> RunFrom(s, steps).loop.Ended?
    decreases |steps|
  {
    if steps != [] {
      BarredForever(Next(s, steps[0]), steps[1..], text);
      assert RecordInit in steps ==> steps[0] == RecordInit || RecordInit in steps[1..];
    }
  }

  /**
   * A KEXINIT that cannot be sent is the last one: no exchange is entered any more, and once kexLoop has recorded
   * the error every writer is refused. One that is sent leaves the loop waiting for the exchange.
   */
  lemma FailedInitIsLast(s: State, body: Octets, a: Answer, steps: seq<Step>, p: Octets)
    requires s.loop.Serving? && !s.side.sentInit && |p| > 0
    ensures a.Accepted? ==> var t := Next(s, SendInit(body, a)); t.loop.Serving? && t.side.sentInit
    ensures a.Refused? ==>
              var t := RunFrom(Next(s, SendInit(body, a)), steps);
              && !t.side.sentInit && (forall outcome, more :: !Enabled(t, Complete(outcome, more)))
              && (if RecordInit in steps then !Takes(t.side, p) else Enabled(t, RecordInit) || !Takes(t.side, p))
  {
    if a.Refused? {
      BarredForever(Next(s, SendInit(body, a)), steps, a.text);
    }
  }

  /** A run with the gap: a packet queued during the exchange and one written behind its failure both go out. */
  lemma WriterInTheGap(p: Octets, q: Octets, init: Octets, text: string)
    requires |p| > 0 && p[0] != MSG_KEX_INIT && p[0] != MSG_NEW_KEYS
    requires |q| > 0 && q[0] != MSG_KEX_INIT && q[0] != MSG_NEW_KEYS
    ensures var t := RunFrom(FRESH, [SendInit(init, Accepted), KexArrives, Write(p, Accepted),
                                     Complete(Some(text), [Accepted]), Write(q, Accepted), ReaderStops]);
            && t.side.wire == [[MSG_KEX_INIT] + init, p, q]
            && t.side.writeError == Some(text) && t.reader == Stopped
  {
    var k := [MSG_KEX_INIT] + init;
    var s := State(Side(None, true, [p], [k]), Waiting, Serving, [p]);
    assert Next(Next(Next(FRESH, SendInit(init, Accepted)), KexArrives), Write(p, Accepted)) == s;
    Behind(s, p, q, k, text);
    Six(FRESH, SendInit(init, Accepted), KexArrives, Write(p, Accepted),
        Complete(Some(text), [Accepted]), Write(q, Accepted), ReaderStops);
  }

  lemma Behind(s: State, p: Octets, q: Octets, k: Octets, text: string)
    requires |q| > 0 && q[0] != MSG_KEX_INIT && q[0] != MSG_NEW_KEYS
    requires s == State(Side(None, true, [p], [k]), Waiting, Serving, [p])
    ensures Next(Next(Next(s, Complete(Some(text), [Accepted])), Write(q, Accepted)), ReaderStops)
            == State(Side(Some(text), false, [], [k, p, q]), Stopped, Serving, [p, q])
  {
    TakenIs([Accepted], 1, 1);
    assert [p][..1] == [p];
    var t := State(Side(None, false, [], [k, p]), Failing(text), Serving, [p]);
    assert Next(s, Complete(Some(text), [Accepted])) == t;
    assert Next(t, Write(q, Accepted)) == State(Side(None, false, [], [k, p, q]), Failing(text), Serving, [p, q]);
  }

  lemma Six(s: State, a: Step, b: Step, c: Step, d: Step, e: Step, f: Step)
    ensures RunFrom(s, [a, b, c, d, e, f]) == Next(Next(Next(Next(Next(Next(s, a), b), c), d), e), f)
  {
    Two(s, a, b, [c, d, e, f]);
    Two(Next(Next(s, a), b), c, d, [e, f]);
    Two(Next(Next(Next(Next(s, a), b), c), d), e, f, []);
    assert [a, b] + [c, d, e, f] == [a, b, c, d, e, f] && [c, d] + [e, f] == [c, d, e, f] && [e, f] + [] == [e, f];
  }

  lemma Two(s: State, a: Step, b: Step, rest: seq<Step>)
    ensures RunFrom(s, [a, b] + rest) == RunFrom(Next(Next(s, a), b), rest)
  {
    assert ([a, b] + rest)[1..] == [b] + rest && ([b] + rest)[1..] == rest;
  }
}
