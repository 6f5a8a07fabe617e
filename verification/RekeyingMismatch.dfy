/**
 * When exactly a key exchange leaves the two sides with ciphers that fit: if and only if the server uses for
 * each direction what was agreed for it, which the code does not, or the lists come out equal for the two
 * directions. Otherwise a run of one exchange already fails.
 */
module RekeyingMismatch {
  import opened Words
  import opened Negotiation
  import opened Rekeying
  import opened RekeyingRuns

  ghost predicate Reachable(agree: Agreement, c: Config, s: Config, t: System) {
    exists r: Run :: IsRun(agree, r) && r.client == c && r.server == s && Last(r.states) == t
  }

  lemma ReachableStart(agree: Agreement, c: Config, s: Config)
    ensures Reachable(agree, c, s, Start(c, s))
  {
    var r := Run(c, s, [Start(c, s)], [], []);
    assert IsRun(agree, r) && Last(r.states) == Start(c, s);
  }

  lemma ReachableNext(agree: Agreement, c: Config, s: Config, t: System, onLeft: bool, a: Step, t': System)
    requires Reachable(agree, c, s, t) && Moves(agree, t, onLeft, a, t')
    ensures Reachable(agree, c, s, t')
  {
    var r: Run :| IsRun(agree, r) && r.client == c && r.server == s && Last(r.states) == t;
    var r' := r.(states := r.states + [t'], onLeft := r.onLeft + [onLeft], steps := r.steps + [a]);
    Extended(agree, r, onLeft, a, t');
    assert Last(r'.states) == t';
  }

  lemma Extended(agree: Agreement, r: Run, onLeft: bool, a: Step, t: System)
    requires IsRun(agree, r) && Moves(agree, Last(r.states), onLeft, a, t)
    ensures IsRun(agree, r.(states := r.states + [t], onLeft := r.onLeft + [onLeft], steps := r.steps + [a]))
  {
    var n := |r.steps|;
    var states, sides, steps := r.states + [t], r.onLeft + [onLeft], r.steps + [a];
    forall k | 0 <= k < n + 1 ensures Moves(agree, states[k], sides[k], steps[k], states[k + 1]) {
      if k < n {
        assert Moves(agree, r.states[k], r.onLeft[k], r.steps[k], r.states[k + 1]);
      }
    }
  }

  /** The system after a step of the left side. */
  function Taken(agree: Agreement, t: System, a: Step): System
    requires Enabled(agree, t.left, t.toLeft, a)
  {
    After(if a.Receive? then t.(toLeft := t.toLeft[1..]) else t, Act(agree, t.left, t.toLeft, a))
  }

  lemma GoLeft(agree: Agreement, c: Config, s: Config, t: System, a: Step) returns (t': System)
    requires Reachable(agree, c, s, t) && !t.failed && Enabled(agree, t.left, t.toLeft, a)
    ensures t' == Taken(agree, t, a) && Reachable(agree, c, s, t')
  {
    t' := Taken(agree, t, a);
    ReachableNext(agree, c, s, t, true, a, t');
  }

  lemma GoRight(agree: Agreement, c: Config, s: Config, t: System, a: Step) returns (t': System)
    requires Reachable(agree, c, s, t) && !t.failed && Enabled(agree, t.right, t.toRight, a)
    ensures t' == Mirror(Taken(agree, Mirror(t), a)) && Reachable(agree, c, s, t')
  {
    t' := Mirror(Taken(agree, Mirror(t), a));
    ReachableNext(agree, c, s, t, false, a, t');
  }

  // ---------------------------------------------------------------- one exchange, step by step

  /** What the run needs to know of a side. */
  datatype View = View(side: Side, config: Config, phase: Phase, sentInit: Option<KexInit>, established: bool,
                       writer: Connection, reader: Connection, session: Option<Transcript>)

  function See(e: Endpoint): View {
    View(e.side, e.config, e.phase, e.sentInit, e.established, e.writer, e.reader, e.session)
  }

  /** The state of both sides and of both wires; nothing is queued and nothing has failed. */
  predicate Shows(t: System, left: View, right: View, toRight: seq<Sealed>, toLeft: seq<Sealed>) {
    && !t.failed && t.left.pending == [] && t.right.pending == []
    && See(t.left) == left && See(t.right) == right && t.toRight == toRight && t.toLeft == toLeft
  }

  function Bare(n: uint32): Connection {
    Connection(NoCipher, n, None)
  }

  lemma SendInits(agree: Agreement, c: Config, s: Config) returns (t: System)
    ensures var k, j := MakeInit(c, 0), MakeInit(s, 0);
            && Reachable(agree, c, s, t)
            && Shows(t, View(Client, c, Idle, Some(k), false, Bare(1), Bare(0), None),
                     View(Server, s, Idle, Some(j), false, Bare(1), Bare(0), None),
                     [Sealed(Init(k), Seal(NoCipher, 0))], [Sealed(Init(j), Seal(NoCipher, 0))])
  {
    ReachableStart(agree, c, s);
    t := GoLeft(agree, c, s, Start(c, s), SendInit(0));
    t := GoRight(agree, c, s, t, SendInit(0));
  }

  lemma ExchangeInits(agree: Agreement, c: Config, s: Config) returns (t: System)
    ensures var k, j := MakeInit(c, 0), MakeInit(s, 0);
            && Reachable(agree, c, s, t)
            && Shows(t, View(Client, c, GotInit(j), Some(k), false, Bare(1), Bare(1), None),
                     View(Server, s, GotInit(k), Some(j), false, Bare(1), Bare(1), None), [], [])
  {
    t := SendInits(agree, c, s);
    t := GoLeft(agree, c, s, t, Receive);
    t := GoRight(agree, c, s, t, Receive);
  }

  lemma EnterBoth(agree: Agreement, c: Config, s: Config, t: System) returns (u: System)
    requires agree(MakeInit(c, 0), MakeInit(s, 0)).Some? && Reachable(agree, c, s, t)
    requires var k, j := MakeInit(c, 0), MakeInit(s, 0);
             Shows(t, View(Client, c, GotInit(j), Some(k), false, Bare(1), Bare(1), None),
                   View(Server, s, GotInit(k), Some(j), false, Bare(1), Bare(1), None), [], [])
    ensures var k, j := MakeInit(c, 0), MakeInit(s, 0);
            && Reachable(agree, c, s, u)
            && Shows(u, View(Client, c, AwaitMsg(j, []), Some(k), false, Bare(2), Bare(1), None),
                     View(Server, s, AwaitMsg(k, []), Some(j), false, Bare(1), Bare(1), None),
                     [Sealed(Msg([]), Seal(NoCipher, 1))], [])
  {
    u := GoLeft(agree, c, s, t, Enter([]));
    u := GoRight(agree, c, s, u, Enter([]));
  }

  lemma AnswerMessage(agree: Agreement, c: Config, s: Config, t: System) returns (u: System)
    requires agree(MakeInit(c, 0), MakeInit(s, 0)).Some? && Reachable(agree, c, s, t)
    requires var k, j := MakeInit(c, 0), MakeInit(s, 0);
             Shows(t, View(Client, c, AwaitMsg(j, []), Some(k), false, Bare(2), Bare(1), None),
                   View(Server, s, AwaitMsg(k, []), Some(j), false, Bare(1), Bare(1), None),
                   [Sealed(Msg([]), Seal(NoCipher, 1))], [])
    ensures var k, j := MakeInit(c, 0), MakeInit(s, 0);
            && Reachable(agree, c, s, u)
            && Shows(u, View(Client, c, AwaitMsg(j, []), Some(k), false, Bare(2), Bare(1), None),
                     View(Server, s, Agreed(Transcript(k, j, [], [])), Some(j), false, Bare(2), Bare(2), None),
                     [], [Sealed(Msg([]), Seal(NoCipher, 1))])
  {
    u := GoRight(agree, c, s, t, Receive);
    u := GoRight(agree, c, s, u, Reply([]));
  }

  lemma ExchangeMessages(agree: Agreement, c: Config, s: Config, t: System) returns (u: System)
    requires agree(MakeInit(c, 0), MakeInit(s, 0)).Some? && Reachable(agree, c, s, t)
    requires var k, j := MakeInit(c, 0), MakeInit(s, 0);
             Shows(t, View(Client, c, GotInit(j), Some(k), false, Bare(1), Bare(1), None),
                   View(Server, s, GotInit(k), Some(j), false, Bare(1), Bare(1), None), [], [])
    ensures var k, j := MakeInit(c, 0), MakeInit(s, 0);
            var done := Agreed(Transcript(k, j, [], []));
            && Reachable(agree, c, s, u)
            && Shows(u, View(Client, c, done, Some(k), false, Bare(2), Bare(2), None),
                     View(Server, s, done, Some(j), false, Bare(2), Bare(2), None), [], [])
  {
    u := EnterBoth(agree, c, s, t);
    u := AnswerMessage(agree, c, s, u);
    u := GoLeft(agree, c, s, u, Receive);
  }

  /** A side that has sent its NEWKEYS and waits for the other one. */
  function Switched(side: Side, config: Config, init: KexInit, w: Cipher, r: Cipher, result: Transcript): View {
    View(side, config, AwaitNewKeys, Some(init), false, Connection(w, 3, None), Connection(NoCipher, 2, Some(r)),
        Some(result))
  }

  lemma SwitchBoth(agree: Agreement, c: Config, s: Config, t: System, algs: Algorithms) returns (u: System)
    requires agree(MakeInit(c, 0), MakeInit(s, 0)) == Some(algs) && Reachable(agree, c, s, t) && !s.conforming
    requires var k, j := MakeInit(c, 0), MakeInit(s, 0);
             var done := Agreed(Transcript(k, j, [], []));
             Shows(t, View(Client, c, done, Some(k), false, Bare(2), Bare(2), None),
                   View(Server, s, done, Some(j), false, Bare(2), Bare(2), None), [], [])
    ensures var k, j := MakeInit(c, 0), MakeInit(s, 0);
            var x := Transcript(k, j, [], []);
            && Reachable(agree, c, s, u)
            && Shows(u, Switched(Client, c, k, Keyed(Client, algs.w, x, x), Keyed(Server, algs.r, x, x), x),
                     Switched(Server, s, j, Keyed(Server, algs.w, x, x), Keyed(Client, algs.r, x, x), x),
                     [Sealed(NewKeys, Seal(NoCipher, 2))], [Sealed(NewKeys, Seal(NoCipher, 2))])
  {
    u := GoLeft(agree, c, s, t, SwitchKeys);
    u := GoRight(agree, c, s, u, SwitchKeys);
  }

  lemma ClientReceives(agree: Agreement, c: Config, s: Config, t: System, algs: Algorithms) returns (u: System)
    requires Reachable(agree, c, s, t)
    requires var k, j := MakeInit(c, 0), MakeInit(s, 0);
             var x := Transcript(k, j, [], []);
             Shows(t, Switched(Client, c, k, Keyed(Client, algs.w, x, x), Keyed(Server, algs.r, x, x), x),
                   Switched(Server, s, j, Keyed(Server, algs.w, x, x), Keyed(Client, algs.r, x, x), x),
                   [Sealed(NewKeys, Seal(NoCipher, 2))], [Sealed(NewKeys, Seal(NoCipher, 2))])
    ensures var k, j := MakeInit(c, 0), MakeInit(s, 0);
            var x := Transcript(k, j, [], []);
            && Reachable(agree, c, s, u) && !u.failed && u.toLeft == []
            && u.left.phase == Finishing(None) && u.left.pending == [] && u.left.established
            && u.left.writer == Connection(Keyed(Client, algs.w, x, x), 3, None)
            && u.toRight == [Sealed(NewKeys, Seal(NoCipher, 2))]
            && See(u.right) == Switched(Server, s, j, Keyed(Server, algs.w, x, x), Keyed(Client, algs.r, x, x), x)
  {
    u := GoLeft(agree, c, s, t, Receive);
  }

  lemma ExchangeNewKeys(agree: Agreement, c: Config, s: Config, t: System, algs: Algorithms) returns (u: System)
    requires agree(MakeInit(c, 0), MakeInit(s, 0)) == Some(algs) && Reachable(agree, c, s, t) && !s.conforming
    requires var k, j := MakeInit(c, 0), MakeInit(s, 0);
             var done := Agreed(Transcript(k, j, [], []));
             Shows(t, View(Client, c, done, Some(k), false, Bare(2), Bare(2), None),
                   View(Server, s, done, Some(j), false, Bare(2), Bare(2), None), [], [])
    ensures var result := Transcript(MakeInit(c, 0), MakeInit(s, 0), [], []);
            && Reachable(agree, c, s, u) && !u.failed && u.toLeft == u.toRight == []
            && u.left.phase == u.right.phase == Finishing(None) && u.left.pending == [] && u.left.established
            && u.left.writer == Connection(Keyed(Client, algs.w, result, result), 3, None)
            && u.right.reader == Connection(Keyed(Client, algs.r, result, result), 3, None)
  {
    u := SwitchBoth(agree, c, s, t, algs);
    u := ClientReceives(agree, c, s, u, algs);
    u := GoRight(agree, c, s, u, Receive);
  }

  /** The first packet under the new keys cannot be opened if they were made for other algorithms. */
  lemma MismatchFails(agree: Agreement, c: Config, s: Config, algs: Algorithms) returns (t: System)
    requires agree(MakeInit(c, 0), MakeInit(s, 0)) == Some(algs) && algs.w != algs.r && !s.conforming
    ensures Reachable(agree, c, s, t) && t.failed
  {
    t := ExchangeInits(agree, c, s);
    t := ExchangeMessages(agree, c, s, t);
    t := ExchangeNewKeys(agree, c, s, t, algs);
    t := GoLeft(agree, c, s, t, Finish);
    t := GoLeft(agree, c, s, t, Submit([]));
    assert t.toRight[0].seal.cipher != t.right.reader.cipher;
    t := GoRight(agree, c, s, t, Receive);
  }

  // ---------------------------------------------------------------- the result

  /**
   * The code as the client or as the server, against the code or against a peer that conforms: no run goes
   * wrong if and only if the server conforms or the lists are compatible. The client is never at fault.
   */
  lemma NothingFailsIff(c: Config, s: Config)
    ensures (forall t :: Reachable(FindAgreed, c, s, t) ==> !t.failed) <==> Suited(c, s)
  {
    AgreedMeetIff(c, s, 0, 0);
    if Suited(c, s) {
      forall t | Reachable(FindAgreed, c, s, t) ensures !t.failed {
        var r: Run :| IsRun(FindAgreed, r) && r.client == c && r.server == s && Last(r.states) == t;
        NothingFails(r, |r.states| - 1);
      }
    } else {
      var t := MismatchFails(FindAgreed, c, s, FindAgreed(MakeInit(c, 0), MakeInit(s, 0)).value);
    }
  }

  /**
   * Such lists: a conforming client with one cipher each way makes a run fail against a server with the lists
   * of sendKexInit that has both ciphers. If that server conformed, no run would fail.
   */
  lemma OneCipherEachWay() returns (c: Config, s: Config, t: System)
    ensures c.conforming && Plain(s) && !s.conforming && Reachable(FindAgreed, c, s, t) && t.failed
    ensures forall u :: Reachable(FindAgreed, c, s.(conforming := true), u) ==> !u.failed
  {
    c := Config(["k"], ["h"], ["a"], ["b"], ["m"], ["m"], true);
    s := Config(["k"], ["h"], ["a", "b"], ["a", "b"], ["m"], ["m"], false);
    var algs := FindAgreed(MakeInit(c, 0), MakeInit(s, 0));
    assert FindCommon(["b"], ["a", "b"]) == Some("b");
    assert algs.value.w.cipher == "a" && algs.value.r.cipher == "b";
    t := MismatchFails(FindAgreed, c, s, algs.value);
    NothingFailsIff(c, s.(conforming := true));
  }
}
