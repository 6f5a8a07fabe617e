/** The AEAD record layer of shadowaead/stream.go: a byte stream cut into sealed records and put together again. */
module ShadowStream {
  import opened Words
  import opened Bytes

  /** An AEAD without additional data: the arguments are the nonce and the text. */
  datatype Aead = Aead(seal: (Octets, Octets) -> Octets, open: (Octets, Octets) -> Option<Octets>, overhead: nat,
      nonceSize: nat)

  /** Opening undoes sealing, and a text is as long as what was sealed without the overhead. */
  ghost predicate Lawful(a: Aead) {
    && (forall n, text {:trigger a.seal(n, text)} ::
         |a.seal(n, text)| == |text| + a.overhead && a.open(n, a.seal(n, text)) == Some(text))
    && (forall n, c {:trigger a.open(n, c)} :: a.open(n, c).Some? ==> |c| == |a.open(n, c).value| + a.overhead)
  }

  /** Only what was sealed can be opened. */
  ghost predicate Ideal(a: Aead) {
    forall n, c {:trigger a.open(n, c)} :: a.open(n, c).Some? ==> c == a.seal(n, a.open(n, c).value)
  }

  /** The largest payload of a record. */
  const MASK := 0x3fff

  // ---------------------------------------------------------------- nonces

  /** k as a little-endian number of size bytes, modulo 256^size. */
  function Nonce(k: nat, size: nat): (s: Octets)
    ensures |s| == size
  {
    if size == 0 then [] else [k % 256] + Nonce(k / 256, size - 1)
  }

  /** The number plus one: the carry goes on as long as bytes wrap to zero. */
  function Bump(s: Octets): (r: Octets)
    ensures |r| == |s|
  {
    if s == [] then [] else if s[0] < 255 then [s[0] + 1] + s[1..] else [0] + Bump(s[1..])
  }

  lemma {:induction false} BumpAddsOne(k: nat, size: nat)
    ensures Bump(Nonce(k, size)) == Nonce(k + 1, size)
    decreases size
  {
    if size > 0 {
      var s := Nonce(k, size);
      assert s[1..] == Nonce(k / 256, size - 1);
      BumpAddsOne(k / 256, size - 1);
    }
  }

  /** A record uses up two nonces. */
  lemma TwoNonces(k: nat, size: nat)
    ensures Bump(Nonce(2 * k, size)) == Nonce(2 * k + 1, size)
            && Bump(Nonce(2 * k + 1, size)) == Nonce(2 * (k + 1), size)
  {
    BumpAddsOne(2 * k, size);
    BumpAddsOne(2 * k + 1, size);
  }

  /** No nonce comes back before the counter wraps. */
  lemma {:induction false} NoRepeat(j: nat, k: nat, size: nat)
    requires j < k < j + Pow256(size)
    ensures Nonce(j, size) != Nonce(k, size)
    decreases size
  {
    assert size > 0 ==> Nonce(j, size)[0] == j % 256 && Nonce(k, size)[0] == k % 256;
    if size > 0 && j % 256 == k % 256 {
      var m, n := j / 256, k / 256;
      assert n < m + Pow256(size - 1);
      NoRepeat(m, n, size - 1);
      assert Nonce(j, size)[1..] == Nonce(m, size - 1) && Nonce(k, size)[1..] == Nonce(n, size - 1);
    }
  }

  /** The bytes before position i wrapped, the one at i took the carry, and the others stayed. */
  predicate Carried(s: Octets, r: Octets, i: nat) {
    && |s| == |r| && i <= |s|
    && (forall j :: 0 <= j < i ==> s[j] == 255 && r[j] == 0)
    && (i < |s| ==> s[i] < 255 && r[i] == s[i] + 1)
    && (forall j :: i < j < |s| ==> r[j] == s[j])
  }

  lemma {:induction false} CarriedIsBump(s: Octets, r: Octets, i: nat)
    requires Carried(s, r, i)
    ensures r == Bump(s)
  {
    if s != [] {
      if i > 0 {
        CarriedIsBump(s[1..], r[1..], i - 1);
      }
      assert r == [r[0]] + r[1..];
    }
  }

  /** increment: little-endian, wrapping around. */
  method Increment(b: array<byte>)
    modifies b
    ensures b[..] == Bump(old(b[..]))
  {
    var i := 0;
    while i < b.Length
      invariant 0 <= i <= b.Length
      invariant forall j :: 0 <= j < i ==> old(b[j]) == 255 && b[j] == 0
      invariant forall j :: i <= j < b.Length ==> b[j] == old(b[j])
    {
      var wraps := b[i] == 255;
      b[i] := if wraps then 0 else b[i] + 1;
      if !wraps {
        break;
      }
      i := i + 1;
    }
    CarriedIsBump(old(b[..]), b[..], i);
  }

  // ---------------------------------------------------------------- records

  /** Record k: its length under nonce 2k and its payload under nonce 2k+1. */
  function Record(a: Aead, k: nat, payload: Octets): Octets {
    a.seal(Nonce(2 * k, a.nonceSize), BigEndian(|payload|, 2)) + a.seal(Nonce(2 * k + 1, a.nonceSize), payload)
  }

  /** The two bytes of a length, the more significant one first. */
  lemma LengthBytes(n: nat)
    requires n <= MASK
    ensures BigEndian(n, 2) == [n / 256, n % 256]
  {
    assert BigEndian(n, 2) == BigEndian(n / 256, 1) + [n % 256];
    assert BigEndian(n / 256, 1) == BigEndian(n / 256 / 256, 0) + [n / 256 % 256];
  }

  /** Records k, k+1, ... with the given payloads. */
  function Wire(a: Aead, k: nat, payloads: seq<Octets>): Octets
    decreases |payloads|
  {
    if payloads == [] then [] else Record(a, k, payloads[0]) + Wire(a, k + 1, payloads[1..])
  }

  lemma {:induction false} WireAppend(a: Aead, k: nat, payloads: seq<Octets>, p: Octets)
    ensures Wire(a, k, payloads + [p]) == Wire(a, k, payloads) + Record(a, k + |payloads|, p)
    decreases |payloads|
  {
    if payloads == [] {
      assert [p][1..] == [];
    } else {
      WireAppend(a, k + 1, payloads[1..], p);
      assert (payloads + [p])[1..] == payloads[1..] + [p];
    }
  }

  /** Payloads as a writer makes them: not empty, and at most MASK bytes. */
  predicate Sized(payloads: seq<Octets>) {
    forall i :: 0 <= i < |payloads| ==> 0 < |payloads[i]| <= MASK
  }

  // ---------------------------------------------------------------- the writer

  class Writer {
    const a: Aead
    const nonce: array<byte>
    /** What has gone to the underlying connection. */
    var sent: Octets
    ghost var payloads: seq<Octets>

    ghost predicate Valid()
      reads this, nonce
    {
      && Lawful(a) && Sized(payloads) && sent == Wire(a, 0, payloads)
      && nonce[..] == Nonce(2 * |payloads|, a.nonceSize)
    }

    constructor (a: Aead)
      requires Lawful(a)
      ensures Valid() && fresh(nonce) && this.a == a && payloads == []
    {
      this.a := a;
      nonce := new byte[a.nonceSize](_ => 0);
      sent, payloads := [], [];
      new;
      ZeroNonce(a.nonceSize);
      assert nonce[..] == Nonce(0, a.nonceSize);
    }

    /** Seals a text under the next nonce. */
    method SealNext(text: Octets) returns (c: Octets)
      modifies nonce
      ensures c == a.seal(old(nonce[..]), text) && nonce[..] == Bump(old(nonce[..]))
    {
      c := a.seal(nonce[..], text);
      Increment(nonce);
    }

    /** One record: the body of the loop of ReadFrom when something was read. */
    method WriteRecord(p: Octets)
      requires Valid() && 0 < |p| <= MASK
      modifies this, nonce
      ensures Valid() && payloads == old(payloads) + [p]
      ensures var k := |old(payloads)|;
              sent == old(sent) + (a.seal(Nonce(2 * k, a.nonceSize), [|p| / 256, |p| % 256])
                                   + a.seal(Nonce(2 * k + 1, a.nonceSize), p))
    {
      WireAppend(a, 0, payloads, p);
      LengthBytes(|p|);
      var record := SealRecord(p, |payloads|);
      Emit(record, p);
    }

    method SealRecord(p: Octets, ghost k: nat) returns (record: Octets)
      requires nonce[..] == Nonce(2 * k, a.nonceSize)
      modifies nonce
      ensures record == Record(a, k, p) && nonce[..] == Nonce(2 * (k + 1), a.nonceSize)
    {
      TwoNonces(k, a.nonceSize);
      var head := SealNext(BigEndian(|p|, 2));
      var body := SealNext(p);
      record := head + body;
    }

    /** The record goes out. */
    method Emit(record: Octets, ghost p: Octets)
      modifies this`sent, this`payloads
      ensures sent == old(sent) + record && payloads == old(payloads) + [p]
    {
      sent := sent + record;
      payloads := payloads + [p];
    }

    /** Write: as many full records as fit, and a last one for the rest. */
    method Write(b: Octets)
      requires Valid()
      modifies this, nonce
      ensures Valid() && Concat(payloads) == old(Concat(payloads)) + b
    {
      var left := b;
      while left != []
        invariant Valid() && Concat(payloads) + left == old(Concat(payloads)) + b
        decreases |left|
      {
        var n := Min(|left|, MASK);
        ConcatAppend(payloads, left[..n]);
        assert left == left[..n] + left[n..];
        WriteRecord(left[..n]);
        left := left[n..];
      }
    }
  }

  lemma {:induction false} ZeroNonce(size: nat)
    ensures forall i :: 0 <= i < size ==> Nonce(0, size)[i] == 0
  {
    if size > 0 {
      ZeroNonce(size - 1);
      assert Nonce(0, size)[1..] == Nonce(0, size - 1);
    }
  }

  // ---------------------------------------------------------------- what a reader makes of any input

  /** io.EOF, io.ErrUnexpectedEOF, or a failed Open. */
  datatype Failure = Eof | Short | Forged

  datatype Outcome = Got(payload: Octets) | Failed(error: Failure)

  /** The outcome of read, how many nonces have been used up behind it, and what is left of the input. */
  datatype Reading = Reading(outcome: Outcome, used: nat, rest: Octets)

  /** io.ReadFull when there is not enough: an error of its own if there was nothing at all. */
  function Missing(input: Octets): Failure {
    if input == [] then Eof else Short
  }

  /** The length that a header stands for. */
  function SizeIn(head: Octets): (n: nat)
    requires |head| == 2
    ensures n <= MASK
  {
    (head[0] as int * 256 + head[1] as int) % 0x4000
  }

  /** read, from the nonce with number used. */
  function ReadOne(a: Aead, used: nat, input: Octets): Reading {
    var m := 2 + a.overhead;
    if |input| < m then Reading(Failed(Missing(input)), used, [])
    else
      var head := a.open(Nonce(used, a.nonceSize), input[..m]);
      if head.None? || |head.value| != 2 then Reading(Failed(Forged), used + 1, input[m..])
      else ReadBody(a, used + 1, input[m..], SizeIn(head.value) + a.overhead)
  }

  function ReadBody(a: Aead, used: nat, input: Octets, n: nat): Reading {
    if |input| < n then Reading(Failed(Missing(input)), used, [])
    else
      var body := a.open(Nonce(used, a.nonceSize), input[..n]);
      Reading(if body.None? then Failed(Forged) else Got(body.value), used + 1, input[n..])
  }

  /** All payloads up to the first error, and that error. */
  datatype Stream = Stream(bytes: Octets, error: Failure)

  function StreamOf(a: Aead, used: nat, input: Octets): Stream
    decreases |input|
  {
    var r := ReadOne(a, used, input);
    match r.outcome
    case Failed(error) => Stream([], error)
    case Got(payload) =>
      var s := StreamOf(a, r.used, r.rest);
      Stream(payload + s.bytes, s.error)
  }

  /** The parts of a record at the front of the wire. */
  lemma RecordParts(a: Aead, k: nat, p: Octets, rest: Octets)
    requires Lawful(a)
    ensures var wire, m := Record(a, k, p) + rest, 2 + a.overhead;
            && |wire| == m + |p| + a.overhead + |rest|
            && wire[..m] == a.seal(Nonce(2 * k, a.nonceSize), BigEndian(|p|, 2))
            && wire[m..][..|p| + a.overhead] == a.seal(Nonce(2 * k + 1, a.nonceSize), p)
            && wire[m..][|p| + a.overhead..] == rest
  {
  }

  lemma SizeOf(p: Octets)
    requires |p| <= MASK
    ensures SizeIn(BigEndian(|p|, 2)) == |p|
  {
    LengthBytes(|p|);
  }

  lemma ReadRecordBack(a: Aead, k: nat, p: Octets, rest: Octets)
    requires Lawful(a) && |p| <= MASK
    ensures ReadOne(a, 2 * k, Record(a, k, p) + rest) == Reading(Got(p), 2 * (k + 1), rest)
  {
    RecordParts(a, k, p, rest);
    SizeOf(p);
  }

  /** What a writer sent comes back, whatever follows it. */
  lemma {:induction false} StreamOfWire(a: Aead, k: nat, payloads: seq<Octets>, rest: Octets, s: Stream)
    requires Lawful(a) && Sized(payloads) && s == StreamOf(a, 2 * (k + |payloads|), rest)
    ensures StreamOf(a, 2 * k, Wire(a, k, payloads) + rest) == Stream(Concat(payloads) + s.bytes, s.error)
    decreases |payloads|
  {
    if payloads == [] {
      assert [] + rest == rest;
    } else {
      var p, others := payloads[0], payloads[1..];
      StreamOfWire(a, k + 1, others, rest, s);
      StreamOfRecord(a, k, p, Wire(a, k + 1, others), rest, Stream(Concat(others) + s.bytes, s.error));
      Regroup(p, Concat(others), s.bytes);
    }
  }

  lemma StreamOfRecord(a: Aead, k: nat, p: Octets, wire: Octets, rest: Octets, s: Stream)
    requires Lawful(a) && |p| <= MASK && s == StreamOf(a, 2 * (k + 1), wire + rest)
    ensures StreamOf(a, 2 * k, Record(a, k, p) + wire + rest) == Stream(p + s.bytes, s.error)
  {
    Regroup(Record(a, k, p), wire, rest);
    ReadRecordBack(a, k, p, wire + rest);
    StreamStep(a, 2 * k, Record(a, k, p) + (wire + rest));
  }

  lemma StreamStep(a: Aead, used: nat, input: Octets)
    ensures var r := ReadOne(a, used, input);
            var s := StreamOf(a, r.used, r.rest);
            StreamOf(a, used, input) == match r.outcome
                                        case Failed(error) => Stream([], error)
                                        case Got(payload) => Stream(payload + s.bytes, s.error)
  {
  }

  /** All that was written, and a regular end. */
  lemma HonestStream(a: Aead, payloads: seq<Octets>)
    requires Lawful(a) && Sized(payloads)
    ensures StreamOf(a, 0, Wire(a, 0, payloads)) == Stream(Concat(payloads), Eof)
  {
    StreamOfWire(a, 0, payloads, [], StreamOf(a, 2 * |payloads|, []));
    StreamStep(a, 2 * |payloads|, []);
    assert Wire(a, 0, payloads) + [] == Wire(a, 0, payloads) && Concat(payloads) + [] == Concat(payloads);
  }

  /**
   * A connection that is cut off: whole records and the first n bytes of another one. What was complete is
   * delivered. The cut looks like a regular end exactly if it falls between records, where nothing can be
   * noticed, or directly behind the sealed length of a record, where the code takes it for one.
   */
  lemma CutOff(a: Aead, payloads: seq<Octets>, p: Octets, n: nat)
    requires Lawful(a) && Sized(payloads) && 0 < |p| <= MASK && n < |Record(a, |payloads|, p)|
    ensures var s := StreamOf(a, 0, Wire(a, 0, payloads) + Record(a, |payloads|, p)[..n]);
            && s.bytes == Concat(payloads)
            && s.error == (if n == 0 || n == 2 + a.overhead then Eof else Short)
  {
    var k := |payloads|;
    CutRecord(a, k, p, n);
    StreamOfWire(a, 0, payloads, Record(a, k, p)[..n], StreamOf(a, 2 * k, Record(a, k, p)[..n]));
  }

  lemma CutRecord(a: Aead, k: nat, p: Octets, n: nat)
    requires Lawful(a) && |p| <= MASK && n < |Record(a, k, p)|
    ensures StreamOf(a, 2 * k, Record(a, k, p)[..n]) == Stream([], if n == 0 || n == 2 + a.overhead then Eof else Short)
  {
    var record, m := Record(a, k, p), 2 + a.overhead;
    var cut := record[..n];
    if n >= m {
      RecordParts(a, k, p, []);
      assert record + [] == record && cut[..m] == record[..m];
      SizeOf(p);
    }
  }

  /** What is delivered was sealed with this key, with these nonces and in this order. */
  lemma Authentic(a: Aead, used: nat, input: Octets) returns (head: Octets)
    requires Lawful(a) && Ideal(a) && ReadOne(a, used, input).outcome.Got?
    ensures var r := ReadOne(a, used, input);
            var p := r.outcome.payload;
            && |head| == 2 && SizeIn(head) == |p|
            && input == a.seal(Nonce(used, a.nonceSize), head) + a.seal(Nonce(used + 1, a.nonceSize), p) + r.rest
  {
    var m := 2 + a.overhead;
    head := a.open(Nonce(used, a.nonceSize), input[..m]).value;
    var n := SizeIn(head) + a.overhead;
    var body := a.open(Nonce(used + 1, a.nonceSize), input[m..][..n]);
    assert input[m..] == input[m..][..n] + input[m..][n..];
    assert input == input[..m] + input[m..];
  }

  // ---------------------------------------------------------------- the reader

  class Reader {
    const a: Aead
    const nonce: array<byte>
    /** What is still to come from the underlying connection. */
    var input: Octets
    var leftover: Octets
    /** The number of nonces used up. */
    ghost var used: nat

    ghost predicate Valid()
      reads this, nonce
    {
      Lawful(a) && nonce[..] == Nonce(used, a.nonceSize)
    }

    /** Everything that is still to be delivered before the first error. */
    ghost function Pending(): Octets
      reads this
    {
      leftover + StreamOf(a, used, input).bytes
    }

    constructor (a: Aead, input: Octets)
      requires Lawful(a)
      ensures Valid() && fresh(nonce) && this.a == a && this.input == input && leftover == [] && used == 0
    {
      this.a, this.input, leftover := a, input, [];
      nonce := new byte[a.nonceSize](_ => 0);
      used := 0;
      new;
      ZeroNonce(a.nonceSize);
      assert nonce[..] == Nonce(0, a.nonceSize);
    }

    /** read: a record, or what stands in the way of one. */
    method ReadRecord() returns (r: Outcome)
      requires Valid()
      modifies this`input, this`used, nonce
      ensures Valid() && Reading(r, used, input) == ReadOne(a, old(used), old(input))
    {
      var head := ReadSealed(2 + a.overhead);
      if head.Failed? {
        return head;
      }
      r := ReadSealed(SizeIn(head.payload) + a.overhead);
    }

    /** io.ReadFull of n bytes, and Open under the next nonce. */
    method ReadSealed(n: nat) returns (r: Outcome)
      requires Valid()
      modifies this`input, this`used, nonce
      ensures Valid() && Reading(r, used, input) == ReadBody(a, old(used), old(input), n)
    {
      if |input| < n {
        r := Failed(Missing(input));
        input := [];
        return;
      }
      BumpAddsOne(used, a.nonceSize);
      var text := a.open(nonce[..], input[..n]);
      input := input[n..];
      Increment(nonce);
      used := used + 1;
      r := if text.None? then Failed(Forged) else Got(text.value);
    }

    /** Read into a buffer of n bytes: what was left over first, and no more than one record. */
    method Read(n: nat) returns (data: Octets, error: Option<Failure>)
      requires Valid()
      modifies this, nonce
      ensures Valid() && |data| <= n
      ensures error.None? ==> old(Pending()) == data + Pending()
      ensures error.Some? ==> data == [] && leftover == [] && old(Pending()) == []
                              && error == Some(StreamOf(a, old(used), old(input)).error)
      ensures error.Some? <==> old(leftover) == [] && ReadOne(a, old(used), old(input)).outcome.Failed?
      ensures n > 0 && error.None? && data == [] ==> ReadOne(a, old(used), old(input)).outcome == Got([])
    {
      data, error := [], None;
      if leftover == [] {
        StreamStep(a, used, input);
        var r := ReadRecord();
        if r.Failed? {
          error := Some(r.error);
          return;
        }
        leftover := r.payload;
      }
      ghost var behind := StreamOf(a, used, input).bytes;
      assert leftover + behind == old(Pending());
      ghost var was := leftover;
      data := TakeLeftover(n);
      Regroup(data, leftover, behind);
    }

    method TakeLeftover(n: nat) returns (data: Octets)
      modifies this`leftover
      ensures old(leftover) == data + leftover && |data| == Min(n, |old(leftover)|)
    {
      var m := Min(n, |leftover|);
      data := leftover[..m];
      leftover := leftover[m..];
    }
  }

  /** Reads of any sizes, until they are all done or one of them fails. */
  method ReadParts(r: Reader, sizes: seq<nat>) returns (parts: seq<Octets>)
    requires r.Valid()
    modifies r, r.nonce
    ensures r.Valid() && |parts| <= |sizes|
    ensures |parts| == |sizes| ==> old(r.Pending()) == Concat(parts) + r.Pending()
    ensures |parts| < |sizes| ==> old(r.Pending()) == Concat(parts)
    decreases |sizes|
  {
    parts := [];
    if sizes != [] {
      var data, error := r.Read(sizes[0]);
      if error.None? {
        var others := ReadParts(r, sizes[1..]);
        parts := [data] + others;
        assert parts[1..] == others;
      }
    }
  }

  method WriteParts(w: Writer, parts: seq<Octets>)
    requires w.Valid()
    modifies w, w.nonce
    ensures w.Valid() && Concat(w.payloads) == old(Concat(w.payloads)) + Concat(parts)
    decreases |parts|
  {
    if parts != [] {
      w.Write(parts[0]);
      WriteParts(w, parts[1..]);
    }
  }

  /** Whatever the sizes of the writes and of the reads, the reader gets the bytes that were written, in order. */
  method RoundTrip(a: Aead, writes: seq<Octets>, sizes: seq<nat>) returns (parts: seq<Octets>, ended: bool)
    requires Lawful(a)
    ensures Concat(parts) <= Concat(writes)
    ensures ended ==> Concat(parts) == Concat(writes)
    ensures ended <==> |parts| < |sizes|
  {
    var w := new Writer(a);
    WriteParts(w, writes);
    assert [] + Concat(writes) == Concat(writes);
    HonestStream(a, w.payloads);
    var r := new Reader(a, w.sent);
    assert r.Pending() == [] + Concat(writes);
    parts := ReadParts(r, sizes);
    ended := |parts| < |sizes|;
  }
}
