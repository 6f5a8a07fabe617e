/** The state machine of otr/smp.go around the messages of the protocol. */
module SmpParty {
  import opened Words
  import opened Smp
  import opened SmpGroup
  import SmpCodec

  datatype Tlv = Abort | Message(number: nat, mpis: seq<nat>)

  /** Failed is the error that says the protocol ran and the secrets differ, or was aborted. */
  datatype Error = NoError | Failed | SecretMissing | Rejected | Corrupt

  const SMP1 := 2
  const SMP_ABORT := 6
  const SMP1_WITH_QUESTION := 7

  /** The message that a TLV holds: the types count the messages from SMP1 on, but for a question and an abort. */
  function Parse(kind: nat, data: Octets): Option<Tlv>
    requires SMP1 <= kind <= SMP1_WITH_QUESTION
  {
    if kind == SMP_ABORT then Some(Abort)
    else if kind == SMP1_WITH_QUESTION then
      var asked := SmpCodec.DecodeAsked(data);
      if asked.None? then None else Some(Message(1, asked.value.mpis))
    else
      var ms := SmpCodec.Decode(data);
      if ms.None? then None else Some(Message(kind - 1, ms.value))
  }

  /** What is sent for a message, with a question in front of the first one if there is one. */
  function Unparse(t: Tlv, question: Octets): (nat, Octets) {
    if t.Abort? then (SMP_ABORT, [])
    else if t.number == 1 && question != [] then (SMP1_WITH_QUESTION, SmpCodec.EncodeAsked(question, t.mpis))
    else (t.number + 1, SmpCodec.Encode(t.mpis))
  }

  /** The other side gets the message that was sent. */
  lemma ParseUnparse(t: Tlv, question: Octets)
    requires t.Message? ==> 1 <= t.number <= 4 && |t.mpis| <= 20
    requires |Unparse(t, question).1| < 0x1_0000_0000 && 0 !in question
    ensures var (kind, data) := Unparse(t, question);
            && kind == (if t.Abort? then 6 else if t.number > 1 then t.number + 1 else if question == [] then 2 else 7)
            && SMP1 <= kind <= SMP1_WITH_QUESTION && Parse(kind, data) == Some(t)
  {
    if t.Message? {
      if t.number == 1 && question != [] {
        SmpCodec.AskedRoundTripIff(question, t.mpis);
      } else {
        SmpCodec.RoundTripIff(t.mpis, []);
        assert SmpCodec.Encode(t.mpis) + [] == SmpCodec.Encode(t.mpis);
      }
    }
  }

  datatype Draws = Draws(two: Draws2, three: Draws3, last: nat)

  class Party {
    const G: Group
    const H: Hash
    var state: nat
    var secret: Option<nat>
    var question: Octets
    var a2: nat
    var a3: nat
    var b3: nat
    var g3a: nat
    var g3b: nat
    var held: Held
    var papb: nat
    var qaqb: nat

    /** A run is under way only with a secret. */
    predicate Valid()
      reads this
    {
      1 <= state <= 4 && (state != 1 ==> secret.Some?)
    }

    constructor (G: Group, H: Hash, secret: Option<nat>)
      ensures Valid() && state == 1 && this.secret == secret && this.G == G && this.H == H
    {
      this.G, this.H, this.secret, state, question := G, H, secret, 1, [];
      a2, a3, b3, g3a, g3b, papb, qaqb := 0, 0, 0, 0, 0, 0, 0;
      held := Held(0, 0, 0, 0);
    }

    /** startSMP: an unfinished run is aborted first. */
    method Start(r: Draws1) returns (out: seq<Tlv>)
      requires Valid() && secret.Some?
      modifies this
      ensures Valid() && state == 2 && secret == old(secret) && question == [] && a2 == r.a2 && a3 == r.a3
      ensures out == (if old(state) != 1 then [Abort] else []) + [Message(1, Smp1(G, H, r))]
    {
      out := if state != 1 then [Abort] else [];
      a2, a3 := r.a2, r.a3;
      out := out + [Message(1, Smp1(G, H, r))];
      question := [];
      state := 2;
    }

    method Reset()
      modifies this`state, this`secret, this`question
      ensures state == 1 && secret == None && question == []
    {
      state, secret, question := 1, None, [];
    }

    /** Whether message number n is the one that the current state waits for. */
    predicate Expected(n: nat)
      reads this
    {
      state == n
    }

    /** What one message does: an abort, a message that is not expected, or the next step of a run. */
    twostate predicate Processed(t: Tlv, r: Draws, new out: Option<Tlv>, complete: bool, err: Error)
      reads this
    {
      && (complete ==> err == NoError && old(state) >= 3 && state == 1 && secret == None)
      && (t.Abort? ==> out == None && !complete && state == 1 && secret == None && question == []
                       && err == if old(state) != 1 then Failed else NoError)
      && (t.Message? && !old(Expected(t.number)) ==>
           out == Some(Abort) && !complete && err == NoError && state == 1 && secret == None && question == [])
      && (t.Message? && old(Expected(t.number)) && t.number == 1 ==>
           Stepped1(t.mpis, r.two, old(secret), out, complete, err))
      && (t.Message? && old(Expected(t.number)) && t.number == 2 ==>
           Stepped2(t.mpis, r.three, old(a2), old(a3), old(secret), out, complete, err))
      && (t.Message? && old(Expected(t.number)) && t.number == 3 ==>
           Stepped3(t.mpis, r.last, old(held), old(g3a), old(b3), out, complete, err))
      && (t.Message? && old(Expected(t.number)) && t.number == 4 ==>
           Stepped4(t.mpis, old(a3), old(g3b), old(papb), old(qaqb), out, complete, err))
    }

    /**
     * processSMP: a message that cannot be read is an error that changes nothing but the question; any
     * other does what the state machine does. The caller passes on these types only.
     */
    method Receive(kind: nat, data: Octets, r: Draws) returns (out: Option<Tlv>, complete: bool, err: Error)
      requires Valid() && SMP1 <= kind <= SMP1_WITH_QUESTION
      modifies this
      ensures Valid()
      ensures Parse(kind, data).None? ==>
                out == None && !complete && err == Corrupt && state == old(state) && secret == old(secret)
      ensures Parse(kind, data).Some? ==> Processed(Parse(kind, data).value, r, out, complete, err)
      ensures question ==
              if Parse(kind, data).Some? && (kind == SMP_ABORT || old(state) != Parse(kind, data).value.number) then []
              else if kind == SMP1_WITH_QUESTION && SmpCodec.NulIn(data).Some? then data[..SmpCodec.NulIn(data).value]
              else old(question)
    {
      var t := Parse(kind, data);
      if kind == SMP1_WITH_QUESTION && SmpCodec.NulIn(data).Some? {
        question := data[..SmpCodec.NulIn(data).value];
      }
      if t == None {
        return None, false, Corrupt;
      }
      out, complete, err := Process(t.value, r);
    }

    /** The part of processSMP behind the reading of the message. */
    method Process(t: Tlv, r: Draws) returns (out: Option<Tlv>, complete: bool, err: Error)
      requires Valid() && (t.Message? ==> 1 <= t.number <= 4)
      modifies this
      ensures Valid() && Processed(t, r, out, complete, err)
      ensures question == if t.Abort? || old(state) != t.number then [] else old(question)
    {
      out, complete, err := None, false, NoError;
      if t.Abort? {
        err := if state != 1 then Failed else NoError;
        Reset();
      } else if !Expected(t.number) {
        Reset();
        out := Some(Abort);
      } else if t.number == 1 {
        out, err := Process1(t.mpis, r.two);
      } else if t.number == 2 {
        out, err := Process2(t.mpis, r.three);
      } else if t.number == 3 {
        out, complete, err := Process3(t.mpis, r.last);
      } else {
        out, complete, err := Process4(t.mpis);
      }
    }

    /** The first message is answered with the second, or refused. */
    predicate Stepped1(m: seq<nat>, r: Draws2, was: Option<nat>, out: Option<Tlv>, complete: bool, err: Error)
      reads this
    {
      !complete && secret == was &&
      if was == None then state == 1 && out == None && err == SecretMissing
      else if !Accepts1(G, H, m) then state == 1 && out == None && err == Rejected
      else
        state == 3 && err == NoError && g3a == m[3] && b3 == r.b3 &&
        held == Hold(G, m[0], m[3], was.value, r) && out == Some(Message(2, Smp2(G, H, held, was.value, r)))
    }

    method Process1(m: seq<nat>, r: Draws2) returns (out: Option<Tlv>, err: Error)
      requires Valid() && state == 1
      modifies this
      ensures Valid() && Stepped1(m, r, old(secret), out, false, err)
      ensures question == old(question)
    {
      out, err := None, NoError;
      if secret == None {
        err := SecretMissing;
      } else if !Accepts1(G, H, m) {
        err := Rejected;
      } else {
        g3a, b3, state := m[3], r.b3, 3;
        held := Hold(G, m[0], m[3], secret.value, r);
        out := Some(Message(2, Smp2(G, H, held, secret.value, r)));
      }
    }

    /** The second message is answered with the third, or with an abort. */
    predicate Stepped2(m: seq<nat>, r: Draws3, x2: nat, x3: nat, was: Option<nat>, out: Option<Tlv>, complete: bool,
        err: Error)
      reads this
    {
      !complete && secret == was && a2 == x2 && a3 == x3 && secret.Some? &&
      if !Accepts2(G, H, x2, x3, m) then state == 2 && out == Some(Abort) && err == Rejected
      else
        var k := Compare(G, x2, x3, m, secret.value, r);
        state == 4 && err == NoError && g3b == m[3] && papb == k.papb && qaqb == k.qaqb &&
        out == Some(Message(3, Smp3(G, H, x2, x3, m, secret.value, r)))
    }

    method Process2(m: seq<nat>, r: Draws3) returns (out: Option<Tlv>, err: Error)
      requires Valid() && state == 2
      modifies this
      ensures Valid() && Stepped2(m, r, old(a2), old(a3), old(secret), out, false, err)
      ensures question == old(question)
    {
      if !Accepts2(G, H, a2, a3, m) {
        out, err := Some(Abort), Rejected;
      } else {
        var k := Compare(G, a2, a3, m, secret.value, r);
        g3b, papb, qaqb, state := m[3], k.papb, k.qaqb, 4;
        out, err := Some(Message(3, Smp3(G, H, a2, a3, m, secret.value, r))), NoError;
      }
    }

    /** The third message is answered with the fourth even if the secrets differ. */
    predicate Stepped3(m: seq<nat>, r7: nat, k: Held, y3: nat, x3: nat, out: Option<Tlv>, complete: bool, err: Error)
      reads this
    {
      if !Accepts3(G, H, k, y3, m) then state == 3 && !complete && out == None && err == Rejected
      else
        out == Some(Message(4, Smp4(G, H, k, x3, m, r7))) &&
        if Matches3(G, k, x3, m) then complete && err == NoError && state == 1 && secret == None
        else !complete && err == Failed && state == 3 && secret.Some?
    }

    method Process3(m: seq<nat>, r7: nat) returns (out: Option<Tlv>, complete: bool, err: Error)
      requires Valid() && state == 3
      modifies this
      ensures Valid() && Stepped3(m, r7, old(held), old(g3a), old(b3), out, complete, err)
      ensures question == old(question)
    {
      out, complete, err := None, false, NoError;
      if !Accepts3(G, H, held, g3a, m) {
        err := Rejected;
      } else {
        out := Some(Message(4, Smp4(G, H, held, b3, m, r7)));
        if Matches3(G, held, b3, m) {
          complete, state, secret := true, 1, None;
        } else {
          err := Failed;
        }
      }
    }

    /** The fourth message ends the run, with an abort to the other side if it went wrong. */
    predicate Stepped4(m: seq<nat>, x3: nat, y3: nat, p: nat, q: nat, out: Option<Tlv>, complete: bool, err: Error)
      reads this
    {
      if Accepts4(G, H, y3, q, m) && Matches4(G, x3, p, m)
      then complete && out == None && err == NoError && state == 1 && secret == None
      else !complete && out == Some(Abort) && state == 4 && err == if Accepts4(G, H, y3, q, m) then Failed else Rejected
    }

    method Process4(m: seq<nat>) returns (out: Option<Tlv>, complete: bool, err: Error)
      requires Valid() && state == 4
      modifies this
      ensures Valid() && Stepped4(m, old(a3), old(g3b), old(papb), old(qaqb), out, complete, err)
      ensures question == old(question)
    {
      out, complete, err := Some(Abort), false, Rejected;
      if Accepts4(G, H, g3b, qaqb, m) {
        if Matches4(G, a3, papb, m) {
          out, complete, err := None, true, NoError;
          state, secret := 1, None;
        } else {
          err := Failed;
        }
      }
    }
  }

  // ---------------------------------------------------------------- runs between two parties

  /** The comparisons of a run of these parties succeed. */
  predicate Equal(q: nat, x: nat, y: nat, one: Draws1, r: Draws)
    requires q > 0
  {
    Agrees(q, Run(x, y, one, r.two, r.three, r.last))
  }

  /**
   * The four messages between two parties in the group of the code. Both complete exactly if the secrets are
   * congruent modulo q or a blinding exponent is a multiple of q, and are then ready for a new run. Otherwise
   * both fail and stay where they are, the starter with an abort for the other side.
   */
  method FourMessages(p: nat, q: nat, g: nat, H: Hash, x: nat, y: nat, one: Draws1, r: Draws)
    returns (alice: Party, bob: Party, outcomes: (bool, bool), errors: (Error, Error), last: Option<Tlv>)
    requires Suitable(p, q, g)
    ensures fresh(alice) && fresh(bob) && alice != bob && alice.Valid() && bob.Valid()
    ensures alice.G == bob.G == ModGroup(p, q, g) && alice.H == bob.H == H
    ensures Equal(q, x, y, one, r) ==>
              && outcomes == (true, true) && errors == (NoError, NoError) && last == None
              && alice.state == bob.state == 1 && alice.secret == bob.secret == None
    ensures !Equal(q, x, y, one, r) ==>
              && outcomes == (false, false) && errors == (Failed, Failed) && last == Some(Abort)
              && alice.state == 4 && bob.state == 3
  {
    var G := ModGroup(p, q, g);
    ModGroupIsLawful(p, q, g);
    HonestRun(G, H, e => El(p, q, g, e), Run(x, y, one, r.two, r.three, r.last));
    alice := new Party(G, H, Some(x));
    bob := new Party(G, H, Some(y));
    var first := alice.Start(one);
    var second, _, e1 := bob.Process(first[0], r);
    var third, _, e2 := alice.Process(second.value, r);
    var fourth, answerer, e3 := bob.Process(third.value, r);
    var finished, e4;
    last, finished, e4 := alice.Process(fourth.value, r);
    outcomes, errors := (finished, answerer), (e4, e3);
  }

  /**
   * Two honest parties: both report completion, or both report failure. Either way the answering party is
   * ready for a new run once the abort of the other side, if there is one, has arrived; the starting party is
   * exactly if the comparison succeeded.
   */
  method Authenticate(p: nat, q: nat, g: nat, H: Hash, x: nat, y: nat, one: Draws1, r: Draws)
    returns (starter: bool, answerer: bool, errors: (Error, Error), states: (nat, nat), ready: bool)
    requires Suitable(p, q, g)
    ensures starter == answerer == Equal(q, x, y, one, r)
    ensures errors == if Equal(q, x, y, one, r) then (NoError, NoError) else (Failed, Failed)
    ensures states == (if Equal(q, x, y, one, r) then (1, 1) else (4, 3)) && ready
  {
    var alice, bob, outcomes, e, last := FourMessages(p, q, g, H, x, y, one, r);
    starter, answerer, errors, states := outcomes.0, outcomes.1, e, (alice.state, bob.state);
    PassAbort(bob, last, r);
    ready := bob.state == 1;
  }

  /** The abort of the other side, if there is one, arrives. */
  method PassAbort(bob: Party, last: Option<Tlv>, r: Draws)
    requires bob.Valid() && (last.Some? ==> last == Some(Abort))
    modifies bob
    ensures bob.Valid() && (bob.state == 1 <==> last.Some? || old(bob.state) == 1)
  {
    if last.Some? {
      var _, _, _ := bob.Process(last.value, r);
    }
  }

  /**
   * A run begun by the former answerer, right behind the first one: its first message is answered with an
   * abort exactly if the comparison failed, since the former starter is still in its own run; otherwise it
   * waits for a secret. Either way the former starter is ready afterwards, and no run goes on.
   */
  method OtherSideStarts(p: nat, q: nat, g: nat, H: Hash, x: nat, y: nat, one: Draws1, r: Draws, mpis: seq<nat>)
    returns (reply: Option<Tlv>, err: Error, state: nat)
    requires Suitable(p, q, g)
    ensures reply == (if Equal(q, x, y, one, r) then None else Some(Abort))
    ensures err == (if Equal(q, x, y, one, r) then SecretMissing else NoError) && state == 1
  {
    var alice, _, _, _, _ := FourMessages(p, q, g, H, x, y, one, r);
    var complete;
    reply, complete, err := alice.Process(Message(1, mpis), r);
    state := alice.state;
  }
}
