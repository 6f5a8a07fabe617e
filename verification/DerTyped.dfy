/** Elements with a given tag, and what the integer, boolean and identifier readers of asn1.go take from them. */
module DerTyped {
  import opened Words
  import opened Der
  import DerInteger
  import DerOid

  const BOOLEAN: byte := 1
  const INTEGER: byte := 2
  const OBJECT_IDENTIFIER: byte := 6

  /** ReadASN1: the contents of an element with this tag, and what follows it. */
  function ReadTagged(s: seq<byte>, tag: byte): Option<(seq<byte>, seq<byte>)> {
    match ReadAny(s)
    case None => None
    case Some(i) => if i.tag == tag then Some((i.content, i.rest)) else None
  }

  /** An element is read from its one encoding and from nothing else. */
  lemma ReadTaggedIff(s: seq<byte>, tag: byte, content: seq<byte>, rest: seq<byte>)
    requires LowTag(tag)
    ensures ReadTagged(s, tag) == Some((content, rest)) <==> s == Wrap(tag, content) + rest && |content| <= READABLE
  {
    if ReadTagged(s, tag) == Some((content, rest)) {
      ReadIsWrapped(s);
    }
    if s == Wrap(tag, content) + rest && |content| <= READABLE {
      ReadWrapped(tag, content, rest);
    }
  }

  /** readASN1BigInt. */
  function ReadInteger(s: seq<byte>): Option<(int, seq<byte>)> {
    match ReadTagged(s, INTEGER)
    case None => None
    case Some(e) =>
      var n := DerInteger.ReadBig(e.0);
      if n.None? then None else Some((n.value, e.1))
  }

  /** An integer is read from its one DER encoding and from nothing else. */
  lemma ReadIntegerIff(s: seq<byte>, n: int, rest: seq<byte>)
    ensures ReadInteger(s) == Some((n, rest)) <==>
            s == Wrap(INTEGER, DerInteger.Contents(n)) + rest && |DerInteger.Contents(n)| <= READABLE
  {
    ReadTaggedIff(s, INTEGER, DerInteger.Contents(n), rest);
    var e := ReadTagged(s, INTEGER);
    if e.Some? {
      DerInteger.ReadBigIff(e.value.0, n);
    }
    DerInteger.ReadBigIff(DerInteger.Contents(n), n);
  }

  /** ReadASN1ObjectIdentifier. */
  function ReadIdentifier(s: seq<byte>): Option<(seq<int>, seq<byte>)> {
    match ReadTagged(s, OBJECT_IDENTIFIER)
    case None => None
    case Some(e) =>
      var oid := DerOid.Read(e.0);
      if oid.None? then None else Some((oid.value, e.1))
  }

  /** What AddASN1ObjectIdentifier writes is read back exactly if every number in it is below 2^28. */
  lemma IdentifierRoundTripIff(oid: seq<int>, rest: seq<byte>)
    requires DerOid.Valid(oid) && DerOid.InRange(oid) && |DerOid.Write(oid).value| <= READABLE
    ensures ReadIdentifier(Wrap(OBJECT_IDENTIFIER, DerOid.Write(oid).value) + rest) == Some((oid, rest)) <==>
            40 * oid[0] + oid[1] < DerOid.TWO28 && DerOid.Small(oid[2..])
  {
    var content := DerOid.Write(oid).value;
    ReadTaggedIff(Wrap(OBJECT_IDENTIFIER, content) + rest, OBJECT_IDENTIFIER, content, rest);
    DerOid.RoundTripIff(oid);
  }

  // ---------------------------------------------------------------- booleans

  function BooleanContents(v: bool): seq<byte> {
    [if v then 0xff else 0]
  }

  /** AddASN1Boolean. */
  function WriteBoolean(v: bool): seq<byte> {
    Wrap(BOOLEAN, BooleanContents(v))
  }

  /** ReadASN1Boolean, which asks for the tag of an INTEGER. */
  function ReadBoolean(s: seq<byte>): Option<(bool, seq<byte>)> {
    match ReadTagged(s, INTEGER)
    case None => None
    case Some(e) =>
      if |e.0| != 1 then None
      else if e.0[0] == 0 then Some((false, e.1))
      else if e.0[0] == 0xff then Some((true, e.1))
      else None
  }

  /** What it reads are the INTEGERs 0 and -1. */
  lemma ReadBooleanIff(s: seq<byte>, v: bool, rest: seq<byte>)
    ensures ReadBoolean(s) == Some((v, rest)) <==> s == Wrap(INTEGER, BooleanContents(v)) + rest
  {
    ReadTaggedIff(s, INTEGER, BooleanContents(v), rest);
    var e := ReadTagged(s, INTEGER);
    if e.Some? && |e.value.0| == 1 {
      assert e.value.0 == [e.value.0[0]];
    }
  }

  /** No boolean that is written is read. */
  lemma WrittenBooleanIsRefused(v: bool, rest: seq<byte>)
    ensures ReadBoolean(WriteBoolean(v) + rest) == None
  {
    ReadWrapped(BOOLEAN, BooleanContents(v), rest);
  }
}
