/** The messages of the Socialist Millionaires Protocol as bytes: getU32, getMPI and appendMPIs of otr.go. */
module SmpCodec {
  import opened Words
  import opened Bytes
  import opened Mpint

  /** A number behind the length of its bytes. */
  function PutMpi(m: nat): Octets {
    BigEndian(|Digits(m)|, 4) + Digits(m)
  }

  function PutMpis(ms: seq<nat>): Octets {
    if ms == [] then [] else PutMpi(ms[0]) + PutMpis(ms[1..])
  }

  function Encode(ms: seq<nat>): Octets {
    BigEndian(|ms|, 4) + PutMpis(ms)
  }

  function TakeMpi(data: Octets): Option<(nat, Octets)> {
    if |data| < 4 then None
    else
      var l := FromBigEndian(data[..4]);
      if U32(|data| - 4) < l then None else Some((FromBigEndian(data[4..4 + l]), data[4 + l..]))
  }

  function TakeMpis(data: Octets, n: nat): Option<seq<nat>>
    decreases n
  {
    if n == 0 then Some([])
    else
      match TakeMpi(data)
      case None => None
      case Some(first) =>
        match TakeMpis(first.1, n - 1)
        case None => None
        case Some(others) => Some([first.0] + others)
  }

  /** The numbers of a message: no more than twenty, and what follows them is ignored. */
  function Decode(data: Octets): Option<seq<nat>> {
    if |data| < 4 || FromBigEndian(data[..4]) > 20 then None else TakeMpis(data[4..], FromBigEndian(data[..4]))
  }

  lemma Front(n: nat, rest: Octets)
    requires n < 0x1_0000_0000
    ensures var data := BigEndian(n, 4) + rest; FromBigEndian(data[..4]) == n && data[4..] == rest
  {
    FourBytesBack(n);
    assert (BigEndian(n, 4) + rest)[..4] == BigEndian(n, 4);
  }

  lemma TakePutMpi(m: nat, rest: Octets)
    requires |PutMpi(m)| + |rest| < 0x1_0000_0000
    ensures TakeMpi(PutMpi(m) + rest) == Some((m, rest))
  {
    var d := Digits(m);
    FourBytesBack(|d|);
    DigitsValue(m);
    ThreeParts(BigEndian(|d|, 4), d, rest);
  }

  lemma {:induction false} TakePutMpis(ms: seq<nat>, rest: Octets)
    requires |PutMpis(ms)| + |rest| < 0x1_0000_0000
    ensures TakeMpis(PutMpis(ms) + rest, |ms|) == Some(ms)
  {
    if ms != [] {
      Regroup(PutMpi(ms[0]), PutMpis(ms[1..]), rest);
      TakePutMpi(ms[0], PutMpis(ms[1..]) + rest);
      TakePutMpis(ms[1..], rest);
      assert ms == [ms[0]] + ms[1..];
    }
  }

  /** The numbers come back exactly if there are not too many of them. */
  lemma RoundTripIff(ms: seq<nat>, rest: Octets)
    requires |Encode(ms)| + |rest| < 0x1_0000_0000
    ensures Decode(Encode(ms) + rest) == if |ms| <= 20 then Some(ms) else None
  {
    LongEnough(ms);
    Regroup(BigEndian(|ms|, 4), PutMpis(ms), rest);
    Front(|ms|, PutMpis(ms) + rest);
    TakePutMpis(ms, rest);
  }

  lemma {:induction false} LongEnough(ms: seq<nat>)
    ensures |PutMpis(ms)| >= |ms|
  {
    if ms != [] {
      LongEnough(ms[1..]);
    }
  }

  // ---------------------------------------------------------------- questions

  /** Where the first NUL is. */
  function NulIn(data: Octets): (r: Option<nat>)
    ensures r.Some? ==> r.value < |data| && data[r.value] == 0
  {
    if data == [] then None
    else if data[0] == 0 then Some(0)
    else
      var i := NulIn(data[1..]);
      if i.None? then None else Some(i.value + 1)
  }

  lemma {:induction false} NulIs(data: Octets, i: nat)
    ensures NulIn(data) == Some(i) <==> i < |data| && data[i] == 0 && 0 !in data[..i]
  {
    if data != [] && data[0] != 0 && i > 0 {
      NulIs(data[1..], i - 1);
      assert i <= |data| ==> data[..i] == [data[0]] + data[1..][..i - 1];
    }
  }

  datatype Asked = Asked(question: Octets, mpis: seq<nat>)

  /** The first message with a question in front. */
  function EncodeAsked(question: Octets, ms: seq<nat>): Octets {
    question + [0] + Encode(ms)
  }

  function DecodeAsked(data: Octets): Option<Asked> {
    var i := NulIn(data);
    if i.None? then None
    else
      var ms := Decode(data[i.value + 1..]);
      if ms.None? then None else Some(Asked(data[..i.value], ms.value))
  }

  /** A question arrives exactly if it contains no NUL. */
  lemma AskedRoundTripIff(question: Octets, ms: seq<nat>)
    requires |ms| <= 20 && |EncodeAsked(question, ms)| < 0x1_0000_0000
    ensures DecodeAsked(EncodeAsked(question, ms)) == Some(Asked(question, ms)) <==> 0 !in question
  {
    var data := EncodeAsked(question, ms);
    var n := |question|;
    NulIs(data, n);
    assert data[..n] == question && data[n] == 0 && data[n + 1..] == Encode(ms);
    RoundTripIff(ms, []);
    assert Encode(ms) + [] == Encode(ms);
    if NulIn(data).Some? {
      NulIs(data, NulIn(data).value);
    }
  }
}
