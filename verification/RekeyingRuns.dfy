/**
 * Two honest transports over any number of key exchanges: what their wires keep, and the results about
 * ciphers, sequence numbers and the order of application packets in every run.
 */
module RekeyingRuns {
  import opened Words
  import opened Negotiation
  import opened Rekeying

  // ---------------------------------------------------------------- the two wires

  /** Packets on their way were sealed under the cipher and number that the reader will have by then. */
  predicate SealedOk(agree: Agreement, tag: Side, results: seq<Transcript>, t: Tally, q: seq<Sealed>)
    requires AllAgreed(agree, results)
    decreases |q|
  {
    q == [] ||
    (&& t.switches <= |results|
     && q[0].seal == Seal(CipherAt(agree, tag, results, t.switches), U32(t.count))
     && SealedOk(agree, tag, results, Count(t, q[0].p), q[1..]))
  }

  lemma {:induction false} SealedLast(agree: Agreement, tag: Side, results: seq<Transcript>, t: Tally, q: seq<Sealed>,
      s: Sealed)
    requires AllAgreed(agree, results) && SealedOk(agree, tag, results, t, q)
    requires CountAll(t, q).switches <= |results|
    requires s.seal == Seal(CipherAt(agree, tag, results, CountAll(t, q).switches), U32(CountAll(t, q).count))
    ensures SealedOk(agree, tag, results, t, q + [s])
    decreases |q|
  {
    if q == [] {
      assert q + [s] == [s];
    } else {
      assert (q + [s])[1..] == q[1..] + [s];
      SealedLast(agree, tag, results, Count(t, q[0].p), q[1..], s);
    }
  }

  lemma {:induction false} SealedStays(agree: Agreement, tag: Side, results: seq<Transcript>, more: seq<Transcript>,
      t: Tally, q: seq<Sealed>)
    requires AllAgreed(agree, results) && AllAgreed(agree, more) && results <= more
    requires SealedOk(agree, tag, results, t, q)
    ensures SealedOk(agree, tag, more, t, q)
    decreases |q|
  {
    if q != [] {
      SealedStays(agree, tag, results, more, Count(t, q[0].p), q[1..]);
    }
  }

  lemma {:induction false} CountGrows(t: Tally, q: seq<Sealed>)
    ensures var u := CountAll(t, q);
            t.inits <= u.inits && t.msgs <= u.msgs && t.apps <= u.apps && t.switches <= u.switches
    ensures t.stage.Broken? ==> CountAll(t, q).stage.Broken?
    decreases |q|
  {
    if q != [] {
      CountGrows(Count(t, q[0].p), q[1..]);
    }
  }

  /** From x to y over q. */
  predicate Link(agree: Agreement, x: Endpoint, y: Endpoint, q: seq<Sealed>) {
    && x.side == Other(y.side)
    && x.sent == CountAll(y.received, q)
    && AllAgreed(agree, x.results) && SealedOk(agree, x.side, x.results, y.received, q)
  }

  /** Both sides compute the same result from the same messages. */
  lemma SameResults(agree: Agreement, x: Endpoint, y: Endpoint, j: nat)
    requires ResultsOk(agree, x) && ResultsOk(agree, y) && x.side == Other(y.side)
    requires y.received.inits <= x.sent.inits && y.received.msgs <= x.sent.msgs
    requires x.received.inits <= y.sent.inits && x.received.msgs <= y.sent.msgs
    requires j < |x.results| && j < |y.results|
    ensures x.results[j] == y.results[j]
  {
    assert HasResult(x, j) && HasResult(y, j);
  }

  lemma WriteKeepsLink(agree: Agreement, x: Endpoint, f: Endpoint, p: Packet, y: Endpoint, q: seq<Sealed>)
    requires CiphersOk(agree, x) && SameCore(x, f) && Link(agree, x, y, q) && !p.NewKeys?
    ensures Link(agree, Push(f, p).e, y, q + Push(f, p).out)
  {
    var s := Push(f, p).out[0];
    CountLast(y.received, q, s);
    SealedLast(agree, x.side, x.results, y.received, q, s);
  }

  lemma SwitchKeepsLink(agree: Agreement, x: Endpoint, y: Endpoint, q: seq<Sealed>)
    requires CiphersOk(agree, x) && Link(agree, x, y, q) && x.phase.Agreed? && HasAlgorithms(agree, x.phase.result)
    ensures SwitchStep(agree, x).Next? && Link(agree, SwitchStep(agree, x).e, y, q + SwitchStep(agree, x).out)
  {
    var r := SwitchStep(agree, x);
    CountLast(y.received, q, r.out[0]);
    SealedLast(agree, x.side, x.results, y.received, q, r.out[0]);
    assert r.e.results == x.results + [x.phase.result];
    SealedStays(agree, x.side, x.results, r.e.results, y.received, q + r.out);
  }

  // ---------------------------------------------------------------- every reachable state

  /** What holds of the left side and of the two wires. */
  predicate LeftOk(agree: Agreement, s: System) {
    && !s.failed
    && Core(agree, s.left) && Progress(agree, s.left)
    && Link(agree, s.left, s.right, s.toRight) && Link(agree, s.right, s.left, s.toLeft)
  }

  predicate Inv(agree: Agreement, s: System) {
    LeftOk(agree, s) && LeftOk(agree, Mirror(s))
  }

  /** A step of the left side that writes one packet other than NEWKEYS. */
  lemma LeftWrites(agree: Agreement, s: System, f: Endpoint, p: Packet)
    requires LeftOk(agree, s) && SameCore(s.left, f) && !p.NewKeys? && Progress(agree, Push(f, p).e)
    ensures LeftOk(agree, After(s, Push(f, p)))
  {
    WriteKeepsCore(agree, s.left, f, p);
    WriteKeepsLink(agree, s.left, f, p, s.right, s.toRight);
  }

  /** A step of the left side that neither reads nor writes. */
  lemma LeftThinks(agree: Agreement, s: System, f: Endpoint)
    requires LeftOk(agree, s) && SameCore(s.left, f) && Progress(agree, f)
    ensures LeftOk(agree, After(s, Next(f, [])))
  {
    SameCoreKeeps(agree, s.left, f);
    assert s.toRight + [] == s.toRight;
  }

  lemma SameCiphers(agree: Agreement, x: Endpoint, y: Endpoint, q: seq<Sealed>, back: seq<Sealed>, n: nat)
    requires ResultsOk(agree, x) && ResultsOk(agree, y) && AllAgreed(agree, x.results) && AllAgreed(agree, y.results)
    requires x.side == Other(y.side) && x.sent == CountAll(y.received, q) && y.sent == CountAll(x.received, back)
    requires n <= |x.results| && n <= |y.results|
    ensures CipherAt(agree, y.side, x.results, n) == CipherAt(agree, y.side, y.results, n)
  {
    CountGrows(y.received, q);
    CountGrows(x.received, back);
    if n > 0 {
      SameResults(agree, x, y, n - 1);
      SameResults(agree, x, y, 0);
    }
  }

  /** What reaches x was sealed under its reader's cipher and number, and fits its phase. */
  lemma HeadFits(agree: Agreement, x: Endpoint, y: Endpoint, q: seq<Sealed>, back: seq<Sealed>)
    requires Core(agree, x) && Core(agree, y) && Regular(y.sent) && back != []
    requires Link(agree, x, y, q) && Link(agree, y, x, back)
    ensures Fits(x, back[0])
  {
    HeadAllowed(x.received, y.sent, back);
    SameCiphers(agree, x, y, q, back, x.received.switches);
  }

  lemma HeadAllowed(t: Tally, u: Tally, back: seq<Sealed>)
    requires back != [] && u == CountAll(t, back) && !u.stage.Broken?
    ensures !Advance(t.stage, back[0].p).Broken?
  {
    CountGrows(Count(t, back[0].p), back[1..]);
  }

  lemma ReceiveKeepsLinks(agree: Agreement, x: Endpoint, y: Endpoint, q: seq<Sealed>, back: seq<Sealed>)
    requires Link(agree, x, y, q) && Link(agree, y, x, back) && back != []
    requires Reads(x.phase) && ReceiveStep(x, back[0]).Next?
    ensures var r := ReceiveStep(x, back[0]);
            r.out == [] && Link(agree, r.e, y, q) && Link(agree, y, r.e, back[1..])
  {
    var r := ReceiveStep(x, back[0]);
    assert r.e.received == Count(x.received, back[0].p);
  }

  lemma LeftReceives(agree: Agreement, s: System)
    requires LeftOk(agree, s) && s.toLeft != [] && Fits(s.left, s.toLeft[0])
    requires Reads(s.left.phase)
    ensures LeftOk(agree, After(s.(toLeft := s.toLeft[1..]), ReceiveStep(s.left, s.toLeft[0])))
  {
    ReceiveKeeps(agree, s.left, s.toLeft[0]);
    ReceiveKeepsLinks(agree, s.left, s.right, s.toRight, s.toLeft);
    AfterReceive(agree, s, ReceiveStep(s.left, s.toLeft[0]));
  }

  lemma AfterReceive(agree: Agreement, s: System, r: Outcome)
    requires !s.failed && s.toLeft != [] && r.Next? && r.out == [] && Core(agree, r.e) && Progress(agree, r.e)
    requires Link(agree, r.e, s.right, s.toRight) && Link(agree, s.right, r.e, s.toLeft[1..])
    ensures LeftOk(agree, After(s.(toLeft := s.toLeft[1..]), r))
  {
    assert s.toRight + [] == s.toRight;
  }

  lemma ReceiveKeeps(agree: Agreement, x: Endpoint, p: Sealed)
    requires Core(agree, x) && Progress(agree, x) && Fits(x, p)
    requires Reads(x.phase)
    ensures var r := ReceiveStep(x, p); r.Next? && Core(agree, r.e) && Progress(agree, r.e)
  {
    ReceiveProgress(agree, x, p);
    ReceiveKeepsCore(agree, x, p);
  }

  /** What was received was sent by the peer. */
  lemma ReceivedMade(x: Endpoint, y: Endpoint, back: seq<Sealed>)
    requires y.sent == CountAll(x.received, back) && AllMade(y.sent.inits, y.config)
    ensures AllMade(x.received.inits, y.config)
  {
    CountGrows(x.received, back);
    forall k | k in x.received.inits ensures k == MakeInit(y.config, k.cookie) {
      var i :| 0 <= i < |x.received.inits| && x.received.inits[i] == k;
      assert y.sent.inits[i] == k;
    }
  }

  lemma SwitchKeeps(agree: Agreement, x: Endpoint, y: Endpoint, q: seq<Sealed>)
    requires FairFor(agree, x, y.config) && Core(agree, x) && Progress(agree, x) && Link(agree, x, y, q)
    requires x.phase.Agreed? && AllMade(x.received.inits, y.config)
    ensures var r := SwitchStep(agree, x);
            r.Next? && Core(agree, r.e) && Progress(agree, r.e) && Link(agree, r.e, y, q + r.out)
  {
    SwitchKeepsCore(agree, x, y.config);
    SwitchProgress(agree, x);
    SwitchKeepsLink(agree, x, y, q);
  }

  lemma LeftSwitches(agree: Agreement, s: System)
    requires FairFor(agree, s.left, s.right.config) && LeftOk(agree, s) && s.left.phase.Agreed?
    requires AllMade(s.right.sent.inits, s.right.config)
    ensures LeftOk(agree, After(s, SwitchStep(agree, s.left)))
  {
    ReceivedMade(s.left, s.right, s.toLeft);
    SwitchKeeps(agree, s.left, s.right, s.toRight);
    SwitchKeepsBackLink(agree, s.left, s.right, s.toLeft);
    AfterSwitch(agree, s, SwitchStep(agree, s.left));
  }

  lemma AfterSwitch(agree: Agreement, s: System, r: Outcome)
    requires !s.failed && r.Next? && Core(agree, r.e) && Progress(agree, r.e)
    requires Link(agree, r.e, s.right, s.toRight + r.out) && Link(agree, s.right, r.e, s.toLeft)
    ensures LeftOk(agree, After(s, r))
  {
  }

  lemma SwitchKeepsBackLink(agree: Agreement, x: Endpoint, y: Endpoint, back: seq<Sealed>)
    requires Link(agree, y, x, back) && x.phase.Agreed? && HasAlgorithms(agree, x.phase.result)
             && SwitchStep(agree, x).Next?
    ensures Link(agree, y, SwitchStep(agree, x).e, back)
  {
    assert SwitchStep(agree, x).e.received == x.received && SwitchStep(agree, x).e.side == x.side;
  }

  lemma LeftSubmits(agree: Agreement, s: System, data: Octets)
    requires LeftOk(agree, s) && s.left.established
    ensures LeftOk(agree, After(s, SubmitStep(s.left, data)))
  {
    SubmitProgress(agree, s.left, data);
    if s.left.sentInit.Some? {
      LeftThinks(agree, s, SubmitStep(s.left, data).e);
    } else {
      LeftWrites(agree, s, s.left.(accepted := s.left.accepted + [data]), App(data));
    }
  }

  lemma LeftSendsInit(agree: Agreement, s: System, cookie: nat)
    requires LeftOk(agree, s) && (s.left.phase.Idle? || s.left.phase.GotInit?) && s.left.sentInit.None?
    ensures LeftOk(agree, After(s, SendInitStep(s.left, cookie)))
  {
    SendInitProgress(agree, s.left, cookie);
    var k := MakeInit(s.left.config, cookie);
    LeftWrites(agree, s, s.left.(sentInit := Some(k)), Init(k));
  }

  lemma LeftEnters(agree: Agreement, s: System, m: Octets)
    requires LeftOk(agree, s) && s.left.phase.GotInit? && s.left.sentInit.Some?
    requires Negotiate(agree, s.left, s.left.phase.other).Some?
    ensures LeftOk(agree, After(s, EnterStep(s.left, m)))
  {
    EnterProgress(agree, s.left, m);
    if s.left.side.Client? {
      LeftWrites(agree, s, s.left.(phase := AwaitMsg(s.left.phase.other, m)), Msg(m));
    } else {
      LeftThinks(agree, s, EnterStep(s.left, m).e);
    }
  }

  lemma LeftReplies(agree: Agreement, s: System, m: Octets)
    requires LeftOk(agree, s) && s.left.phase.MustReply?
    ensures LeftOk(agree, After(s, ReplyStep(s.left, m)))
  {
    var x := s.left;
    ReplyProgress(agree, x, m);
    LeftWrites(agree, s, x.(phase := Agreed(Transcript(x.phase.other, x.sentInit.value, x.phase.theirs, m))), Msg(m));
  }

  lemma LeftFlushes(agree: Agreement, s: System)
    requires LeftOk(agree, s) && s.left.phase.Finishing? && s.left.pending != []
    ensures LeftOk(agree, After(s, FlushStep(s.left)))
  {
    FlushProgress(agree, s.left);
    LeftWrites(agree, s, s.left.(pending := s.left.pending[1..]), App(s.left.pending[0]));
  }

  lemma LeftFinishes(agree: Agreement, s: System)
    requires LeftOk(agree, s) && s.left.phase.Finishing? && s.left.pending == []
    ensures LeftOk(agree, After(s, FinishStep(s.left)))
  {
    FinishProgress(agree, s.left);
    LeftThinks(agree, s, FinishStep(s.left).e);
  }

  lemma LeftKeepsWriting(agree: Agreement, s: System, a: Step, s': System)
    requires LeftOk(agree, s) && LeftMoves(agree, s, a, s') && !a.Receive? && !a.SwitchKeys?
    ensures LeftOk(agree, s') && s'.right == s.right
  {
    match a
    case Submit(data) => LeftSubmits(agree, s, data);
    case SendInit(cookie) => LeftSendsInit(agree, s, cookie);
    case Enter(m) => LeftEnters(agree, s, m);
    case Reply(m) => LeftReplies(agree, s, m);
    case Flush => LeftFlushes(agree, s);
    case Finish => LeftFinishes(agree, s);
  }

  lemma LeftReceivesNext(agree: Agreement, s: System)
    requires LeftOk(agree, s) && s.toLeft != [] && Reads(s.left.phase) && Core(agree, s.right) && Regular(s.right.sent)
    ensures LeftOk(agree, After(s.(toLeft := s.toLeft[1..]), ReceiveStep(s.left, s.toLeft[0])))
  {
    HeadFits(agree, s.left, s.right, s.toRight, s.toLeft);
    LeftReceives(agree, s);
  }

  lemma LeftKeeps(agree: Agreement, s: System, a: Step, s': System)
    requires FairFor(agree, s.left, s.right.config) && LeftOk(agree, s) && LeftMoves(agree, s, a, s')
    requires Core(agree, s.right) && Regular(s.right.sent) && AllMade(s.right.sent.inits, s.right.config)
    ensures LeftOk(agree, s') && s'.right == s.right
  {
    if a.Receive? {
      LeftReceivesNext(agree, s);
    } else if a.SwitchKeys? {
      LeftKeepsSwitching(agree, s, s');
    } else {
      LeftKeepsWriting(agree, s, a, s');
    }
  }

  lemma LeftKeepsSwitching(agree: Agreement, s: System, s': System)
    requires FairFor(agree, s.left, s.right.config) && LeftOk(agree, s) && LeftMoves(agree, s, SwitchKeys, s')
    requires AllMade(s.right.sent.inits, s.right.config)
    ensures LeftOk(agree, s') && s'.right == s.right
  {
    LeftSwitches(agree, s);
  }

  /** No step changes what a side is and what it advertises. */
  lemma LeftStays(agree: Agreement, s: System, a: Step, s': System)
    requires LeftMoves(agree, s, a, s')
    ensures s'.left.side == s.left.side && s'.left.config == s.left.config
  {
  }

  /** The system of two sides with these configurations. */
  predicate Between(s: System, client: Config, server: Config) {
    s.left.side.Client? && s.left.config == client && s.right.side.Server? && s.right.config == server
  }

  lemma MoveKeeps(agree: Agreement, s: System, onLeft: bool, a: Step, s': System, client: Config, server: Config)
    requires Fair(agree, client, server) && Between(s, client, server)
    requires Inv(agree, s) && Moves(agree, s, onLeft, a, s')
    ensures Inv(agree, s') && Between(s', client, server)
  {
    if onLeft {
      LeftKeeps(agree, s, a, s');
      LeftStays(agree, s, a, s');
    } else {
      LeftKeeps(agree, Mirror(s), a, Mirror(s'));
      LeftStays(agree, Mirror(s), a, Mirror(s'));
    }
  }

  lemma StartKeeps(agree: Agreement, client: Config, server: Config)
    ensures Inv(agree, Start(client, server))
  {
  }

  lemma RunsKeep(agree: Agreement, r: Run, k: nat)
    requires Fair(agree, r.client, r.server) && IsRun(agree, r) && k < |r.states|
    ensures Inv(agree, r.states[k]) && Between(r.states[k], r.client, r.server)
  {
    var c, d := r.client, r.server;
    var holds := (s: System) => Inv(agree, s) && Between(s, c, d);
    StartKeeps(agree, c, d);
    forall s, onLeft, a, s' | holds(s) && Moves(agree, s, onLeft, a, s') ensures holds(s') {
      MoveKeeps(agree, s, onLeft, a, s', c, d);
    }
    HoldsAlong(agree, r, k, holds);
  }

  /** What holds at the start and is kept by every move holds in every state of a run. */
  lemma {:induction false} HoldsAlong(agree: Agreement, r: Run, k: nat, holds: System -> bool)
    requires IsRun(agree, r) && k < |r.states| && holds(r.states[0])
    requires forall s, onLeft, a, s' :: holds(s) && Moves(agree, s, onLeft, a, s') ==> holds(s')
    ensures holds(r.states[k])
  {
    if k > 0 {
      HoldsAlong(agree, r, k - 1, holds);
      assert Moves(agree, r.states[k - 1], r.onLeft[k - 1], r.steps[k - 1], r.states[k]);
    }
  }

  // ---------------------------------------------------------------- the main results

  function Facing(s: System, rightward: bool): System {
    if rightward then s else Mirror(s)
  }

  /**
   * If the two sides agree at all, they agree on the same for both directions; with the lists of
   * sendKexInit on both sides they always do.
   */
  predicate Compatible(c: Config, s: Config) {
    FindAgreed(MakeInit(c, 0), MakeInit(s, 0)).Some? ==> Meet(c, s)
  }

  /** The server conforms, or the lists are compatible; what the client does is right either way. */
  predicate Suited(c: Config, s: Config) {
    s.conforming || Compatible(c, s)
  }

  lemma PlainIsCompatible(c: Config, s: Config)
    requires Plain(c) && Plain(s)
    ensures Compatible(c, s)
  {
  }

  lemma FindAgreedIsFair(client: Config, server: Config)
    requires Suited(client, server)
    ensures Fair(FindAgreed, client, server)
  {
    if server.conforming {
      return;
    }
    forall i, j ensures var algs := FindAgreed(MakeInit(client, i), MakeInit(server, j));
                        algs.Some? ==> algs.value.w == algs.value.r
    {
      AgreedMeetIff(client, server, i, j);
    }
  }

  /**
   * A good state: no failure so far, the same exchanges on both sides, and what arrives next was
   * sealed under the cipher and the sequence number that its reader has now.
   */
  predicate Sound(s: System) {
    && !s.failed
    && (forall j :: 0 <= j < |s.left.results| && j < |s.right.results| ==> s.left.results[j] == s.right.results[j])
    && (s.toLeft != [] ==> s.toLeft[0].seal == Seal(s.left.reader.cipher, s.left.reader.seqNum))
    && (s.toRight != [] ==> s.toRight[0].seal == Seal(s.right.reader.cipher, s.right.reader.seqNum))
    && s.left.writer.seqNum == U32(|s.left.log|) && s.right.writer.seqNum == U32(|s.right.log|)
    && Vacant(s.left) && Vacant(s.right)
  }

  /** A cipher waits to be switched to only in the reader, between our NEWKEYS and the other side's. */
  predicate Vacant(e: Endpoint) {
    e.writer.next == None && (e.reader.next.Some? <==> e.phase.AwaitNewKeys?)
  }

  lemma InvIsSound(agree: Agreement, s: System)
    requires Inv(agree, s)
    ensures Sound(s)
  {
    SameHistory(agree, s);
    LeftIsSound(agree, s.left, s.right, s.toRight, s.toLeft);
    LeftIsSound(agree, s.right, s.left, s.toLeft, s.toRight);
  }

  lemma LeftIsSound(agree: Agreement, x: Endpoint, y: Endpoint, q: seq<Sealed>, back: seq<Sealed>)
    requires Core(agree, x) && Core(agree, y) && Regular(y.sent) && Link(agree, x, y, q) && Link(agree, y, x, back)
    ensures back != [] ==> back[0].seal == Seal(x.reader.cipher, x.reader.seqNum)
    ensures x.writer.seqNum == U32(|x.log|)
  {
    NumberedByLog(agree, x);
    if back != [] {
      HeadFits(agree, x, y, q, back);
    }
  }

  lemma NumberedByLog(agree: Agreement, x: Endpoint)
    requires Core(agree, x)
    ensures x.writer.seqNum == U32(|x.log|)
  {
    CountedLength(ZERO, x.log);
  }

  /**
   * With a server that conforms or two sides whose lists are compatible, over any number of key exchanges in any
   * interleaving, nothing fails: no packet is opened under another cipher, key or number than it
   * was sealed with, no message comes out of turn, and no NEWKEYS is written or read without a
   * cipher to switch to.
   */
  lemma NothingFails(r: Run, k: nat)
    requires IsRun(FindAgreed, r) && k < |r.states| && Suited(r.client, r.server)
    ensures Sound(r.states[k])
  {
    FindAgreedIsFair(r.client, r.server);
    FairRunsAreSound(FindAgreed, r, k);
  }

  lemma FairRunsAreSound(agree: Agreement, r: Run, k: nat)
    requires Fair(agree, r.client, r.server) && IsRun(agree, r) && k < |r.states|
    ensures Sound(r.states[k])
  {
    RunsKeep(agree, r, k);
    InvIsSound(agree, r.states[k]);
  }

  lemma {:induction false} CountedLength(t: Tally, log: seq<Sealed>)
    ensures CountAll(t, log).count == t.count + |log|
    decreases |log|
  {
    if log != [] {
      CountedLength(Count(t, log[0].p), log[1..]);
    }
  }

  lemma SameHistory(agree: Agreement, s: System)
    requires Inv(agree, s)
    ensures forall j :: 0 <= j < |s.left.results| && j < |s.right.results| ==> s.left.results[j] == s.right.results[j]
  {
    CountGrows(s.right.received, s.toRight);
    CountGrows(s.left.received, s.toLeft);
    forall j | 0 <= j < |s.left.results| && j < |s.right.results| ensures s.left.results[j] == s.right.results[j] {
      SameResults(agree, s.left, s.right, j);
    }
  }

  /** No application packet stands between a KEXINIT and the next NEWKEYS. */
  predicate QuietDuringExchange(log: seq<Sealed>) {
    forall i, j :: 0 <= i < j < |log| && log[i].p.Init? && log[j].p.App? ==> exists n :: i < n < j && log[n].p.NewKeys?
  }

  /** The application packets of a log, in order. */
  function AppsIn(log: seq<Sealed>): seq<Octets> {
    if log == [] then [] else (if log[0].p.App? then [log[0].p.data] else []) + AppsIn(log[1..])
  }

  lemma {:induction false} CountedApps(t: Tally, log: seq<Sealed>)
    ensures CountAll(t, log).apps == t.apps + AppsIn(log)
    decreases |log|
  {
    if log != [] {
      CountedApps(Count(t, log[0].p), log[1..]);
    }
  }

  /** After a KEXINIT and before a NEWKEYS the stage is one in which an application packet breaks the wire. */
  lemma {:induction false} QuietUntilSwitch(t: Tally, log: seq<Sealed>, j: nat)
    requires !CountAll(t, log).stage.Broken? && (t.stage.Inited? || t.stage.Msged?)
    requires j < |log| && log[j].p.App?
    ensures exists n :: 0 <= n < j && log[n].p.NewKeys?
    decreases |log|
  {
    var u := Count(t, log[0].p);
    CountGrows(u, log[1..]);
    if j > 0 && !log[0].p.NewKeys? {
      QuietUntilSwitch(u, log[1..], j - 1);
      var n :| 0 <= n < j - 1 && log[1..][n].p.NewKeys?;
      assert log[n + 1].p.NewKeys?;
    }
  }

  lemma {:induction false} RegularIsQuiet(t: Tally, log: seq<Sealed>)
    requires !CountAll(t, log).stage.Broken?
    ensures QuietDuringExchange(log)
    decreases |log|
  {
    if log != [] {
      var u := Count(t, log[0].p);
      RegularIsQuiet(u, log[1..]);
      CountGrows(u, log[1..]);
      forall i, j | 0 <= i < j < |log| && log[i].p.Init? && log[j].p.App?
        ensures exists n :: i < n < j && log[n].p.NewKeys?
      {
        if i == 0 {
          QuietUntilSwitch(u, log[1..], j - 1);
          var n :| 0 <= n < j - 1 && log[1..][n].p.NewKeys?;
          assert log[n + 1].p.NewKeys?;
        } else {
          assert log[1..][i - 1] == log[i] && log[1..][j - 1] == log[j];
          var n :| i - 1 < n < j - 1 && log[1..][n].p.NewKeys?;
          assert log[n + 1].p.NewKeys?;
        }
      }
    }
  }

  /**
   * Queueing. In every run no application packet is on the wire between our KEXINIT and our NEWKEYS,
   * and the packets accepted from writers, queued or not, are on the wire exactly once and in the
   * order of acceptance, except for those still waiting. What the other side has read is a prefix.
   */
  lemma QueueingKeepsOrder(r: Run, k: nat, rightward: bool)
    requires IsRun(FindAgreed, r) && k < |r.states| && Suited(r.client, r.server)
    ensures var s := Facing(r.states[k], rightward);
            && QuietDuringExchange(s.left.log)
            && AppsIn(s.left.log) + s.left.pending == s.left.accepted
            && s.right.received.apps <= s.left.accepted
  {
    FindAgreedIsFair(r.client, r.server);
    FairRunsKeepOrder(FindAgreed, r, k, rightward);
  }

  lemma FairRunsKeepOrder(agree: Agreement, r: Run, k: nat, rightward: bool)
    requires Fair(agree, r.client, r.server) && IsRun(agree, r) && k < |r.states|
    ensures var s := Facing(r.states[k], rightward);
            && QuietDuringExchange(s.left.log)
            && AppsIn(s.left.log) + s.left.pending == s.left.accepted
            && s.right.received.apps <= s.left.accepted
  {
    RunsKeep(agree, r, k);
    var s := Facing(r.states[k], rightward);
    OrderIsKept(s.left, s.right, s.toRight);
  }

  lemma OrderIsKept(x: Endpoint, y: Endpoint, q: seq<Sealed>)
    requires AppsOk(x) && !x.sent.stage.Broken? && x.sent == CountAll(ZERO, x.log) && x.sent == CountAll(y.received, q)
    ensures QuietDuringExchange(x.log) && AppsIn(x.log) + x.pending == x.accepted && y.received.apps <= x.accepted
  {
    CountedApps(ZERO, x.log);
    RegularIsQuiet(ZERO, x.log);
    CountGrows(y.received, q);
  }
}
