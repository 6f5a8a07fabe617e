/**
 * DER elements with low tag numbers: the bytes that the builder of cryptobyte produces, what its
 * parser accepts, and the two as inverses of each other.
 */
module Der {
  import opened Words
  import opened Bytes
  import opened Division

  datatype Element =
    | Primitive(tag: byte, content: seq<byte>)
    | Constructed(tag: byte, parts: seq<Element>)

  /** A tag below 31, which takes a single identifier octet. */
  predicate LowTag(tag: byte) {
    tag % 32 != 31
  }

  predicate ConstructedBit(tag: byte) {
    tag / 32 % 2 == 1
  }

  // ---------------------------------------------------------------- what is written

  /** The length octets of section 10.1 of X.690: the short form below 128, else as few as possible. */
  function LengthBytes(n: nat): seq<byte> {
    if n <= 0x7f then [n]
    else if n <= 0xff then [0x81] + BigEndian(n, 1)
    else if n <= 0xffff then [0x82] + BigEndian(n, 2)
    else if n <= 0xff_ffff then [0x83] + BigEndian(n, 3)
    else [0x84] + BigEndian(n, 4)
  }

  function Wrap(tag: byte, content: seq<byte>): seq<byte> {
    [tag] + LengthBytes(|content|) + content
  }

  function Body(e: Element): seq<byte>
    decreases e
  {
    match e
    case Primitive(_, content) => content
    case Constructed(_, parts) => EncodeAll(parts)
  }

  function EncodeAll(es: seq<Element>): seq<byte>
    decreases es
  {
    if es == [] then [] else Wrap(es[0].tag, Body(es[0])) + EncodeAll(es[1..])
  }

  /** The tags agree with the kind of element and every body is at most limit bytes long. */
  predicate Fits(e: Element, limit: nat)
    decreases e
  {
    LowTag(e.tag) && ConstructedBit(e.tag) == e.Constructed? && |Body(e)| <= limit
    && (e.Constructed? ==> AllFit(e.parts, limit))
  }

  predicate AllFit(es: seq<Element>, limit: nat)
    decreases es
  {
    es == [] || (Fits(es[0], limit) && AllFit(es[1..], limit))
  }

  /** The longest body for which the builder writes a length. */
  const WRITABLE := 0xffff_fffe

  /** The longest body for which the length of the whole element does not overflow 32 bits. */
  const READABLE := 0xffff_fff9

  // ---------------------------------------------------------------- what is read

  datatype Item = Item(tag: byte, content: seq<byte>, rest: seq<byte>)

  /** Reads one element off the front of s, or refuses. */
  function ReadAny(s: seq<byte>): (r: Option<Item>)
    ensures r.Some? ==> |r.value.content| < |s| && |r.value.rest| < |s|
  {
    if |s| < 2 || !LowTag(s[0]) then None
    else if s[1] < 0x80 then Cut(s, 2, s[1])
    else ReadLongForm(s, s[1] - 0x80)
  }

  /** The long form: k octets hold the length, which must need all of them. */
  function ReadLongForm(s: seq<byte>, k: nat): (r: Option<Item>)
    requires |s| >= 2
    ensures r.Some? ==> |r.value.content| < |s| && |r.value.rest| < |s|
  {
    if k == 0 || k > 4 || |s| < 2 + k then None
    else
      var n := FromBigEndian(s[2..2 + k]);
      if n < 128 || n / Pow256(k - 1) == 0 || U32(2 + k + n) < n then None
      else Cut(s, 2 + k, n)
  }

  /** Splits s into a header, n bytes of content and the rest. */
  function Cut(s: seq<byte>, header: nat, n: nat): (r: Option<Item>)
    requires 0 < header <= |s|
    ensures r.Some? ==> |r.value.content| < |s| && |r.value.rest| < |s|
  {
    if |s| < header + n then None else Some(Item(s[0], s[header..header + n], s[header + n..]))
  }

  /** Reads elements until nothing is left, going into constructed ones. */
  function ParseAll(s: seq<byte>): Option<seq<Element>>
    decreases |s|, 0
  {
    if s == [] then Some([])
    else
      match ReadAny(s)
      case None => None
      case Some(i) =>
        match (ParseItem(i.tag, i.content), ParseAll(i.rest))
        case (Some(e), Some(es)) => Some([e] + es)
        case _ => None
  }

  function ParseItem(tag: byte, content: seq<byte>): Option<Element>
    decreases |content|, 1
  {
    if !ConstructedBit(tag) then Some(Primitive(tag, content))
    else
      match ParseAll(content)
      case None => None
      case Some(parts) => Some(Constructed(tag, parts))
  }

  // ---------------------------------------------------------------- one element

  /** The parser undoes the wrapping, unless the whole element would be 2^32 bytes or longer. */
  lemma ReadWrapped(tag: byte, content: seq<byte>, rest: seq<byte>)
    requires LowTag(tag) && |content| < 0x1_0000_0000
    ensures ReadAny(Wrap(tag, content) + rest) ==
            if |content| <= READABLE then Some(Item(tag, content, rest)) else None
  {
    var n := |content|;
    var s := Wrap(tag, content) + rest;
    Powers();
    if n <= 0x7f {
      assert s[2..2 + n] == content && s[2 + n..] == rest;
    } else {
      var k := if n <= 0xff then 1 else if n <= 0xffff then 2 else if n <= 0xff_ffff then 3 else 4;
      LengthIsMinimal(n, k);
      ReadLong(tag, content, rest, k);
      assert s[1] == 0x80 + k;
    }
  }

  lemma ReadLong(tag: byte, content: seq<byte>, rest: seq<byte>, k: nat)
    requires LowTag(tag) && 1 <= k <= 4 && 128 <= |content| < Pow256(k) <= 0x1_0000_0000
    requires Pow256(k - 1) <= |content|
    ensures ReadLongForm([tag] + ([0x80 + k] + BigEndian(|content|, k)) + content + rest, k) ==
            if 2 + k + |content| < 0x1_0000_0000 then Some(Item(tag, content, rest)) else None
  {
    var n := |content|;
    BigEndianInverse(n, k);
    UniqueRemainder(n, Pow256(k), 0, n);
    Slices(tag, BigEndian(n, k), content, rest);
    OpenLong([tag] + ([0x80 + k] + BigEndian(n, k)) + content + rest, k, content, rest);
  }

  lemma OpenLong(s: seq<byte>, k: nat, content: seq<byte>, rest: seq<byte>)
    requires 1 <= k <= 4 && |s| == 2 + k + |content| + |rest| && 128 <= |content| < 0x1_0000_0000
             && Pow256(k - 1) <= |content|
    requires FromBigEndian(s[2..2 + k]) == |content| && s[2 + k..2 + k + |content|] == content
             && s[2 + k + |content|..] == rest
    ensures ReadLongForm(s, k) == if 2 + k + |content| < 0x1_0000_0000 then Some(Item(s[0], content, rest)) else None
  {
    AtLeastOnce(|content|, Pow256(k - 1));
  }

  lemma Slices(tag: byte, length: seq<byte>, content: seq<byte>, rest: seq<byte>)
    requires |length| < 128
    ensures var s, k, n := [tag] + ([0x80 + |length|] + length) + content + rest, |length|, |content|;
            s[2..2 + k] == length && s[2 + k..2 + k + n] == content && s[2 + k + n..] == rest
  {
  }

  lemma AtLeastOnce(n: nat, p: nat)
    requires 1 <= p
    ensures n / p == 0 <==> n < p
  {
    if n < p {
      UniqueRemainder(n, p, 0, n);
    }
  }

  /** What the parser accepts is what the builder would have written. */
  lemma ReadIsWrapped(s: seq<byte>)
    requires ReadAny(s).Some?
    ensures var i := ReadAny(s).value;
            s == Wrap(i.tag, i.content) + i.rest && LowTag(i.tag) && |i.content| <= READABLE
  {
    var i := ReadAny(s).value;
    if s[1] < 0x80 {
      assert s == [s[0]] + [s[1]] + i.content + i.rest;
    } else {
      ReadLongIsMinimal(s, s[1] - 0x80);
    }
  }

  lemma ReadLongIsMinimal(s: seq<byte>, k: nat)
    requires |s| >= 2 && s[1] == 0x80 + k && ReadLongForm(s, k).Some?
    ensures var i := ReadLongForm(s, k).value;
            s == Wrap(s[0], i.content) + i.rest && i.tag == s[0] && |i.content| <= READABLE
  {
    var n := FromBigEndian(s[2..2 + k]);
    FromBigEndianInverse(s[2..2 + k]);
    AtLeastOnce(n, Pow256(k - 1));
    LengthIsMinimal(n, k);
    LongIsWrapped(s, k, s[2 + k..2 + k + n]);
  }

  lemma LongIsWrapped(s: seq<byte>, k: nat, content: seq<byte>)
    requires 2 + k + |content| <= |s| && content == s[2 + k..2 + k + |content|]
    requires LengthBytes(|content|) == [s[1]] + s[2..2 + k]
    ensures s == Wrap(s[0], content) + s[2 + k + |content|..]
  {
    Pieces(s, k, |content|);
  }

  lemma LengthIsMinimal(n: nat, k: nat)
    requires 1 <= k <= 4 && 128 <= n && Pow256(k - 1) <= n < Pow256(k)
    ensures LengthBytes(n) == [0x80 + k] + BigEndian(n, k) && n < 0x1_0000_0000
  {
    Powers();
    if k == 1 {
    } else if k == 2 {
    } else if k == 3 {
    } else {
    }
  }

  lemma Pieces(s: seq<byte>, k: nat, n: nat)
    requires 2 + k + n <= |s|
    ensures s == [s[0]] + ([s[1]] + s[2..2 + k]) + s[2 + k..2 + k + n] + s[2 + k + n..]
  {
  }

  // ---------------------------------------------------------------- trees of elements

  /** The parser returns a forest exactly for the encoding of that forest, within its length limit. */
  lemma {:induction false} ParseInvertsEncode(s: seq<byte>, es: seq<Element>)
    ensures ParseAll(s) == Some(es) <==> s == EncodeAll(es) && AllFit(es, READABLE)
    decreases |s| + |EncodeAll(es)|
  {
    if ParseAll(s) == Some(es) {
      ParsedIsEncoded(s);
    }
    if s == EncodeAll(es) && AllFit(es, READABLE) {
      EncodedIsParsed(es);
    }
  }

  lemma {:induction false} ParsedIsEncoded(s: seq<byte>)
    requires ParseAll(s).Some?
    ensures s == EncodeAll(ParseAll(s).value) && AllFit(ParseAll(s).value, READABLE)
    decreases |s|
  {
    if s != [] {
      var i := ReadAny(s).value;
      ReadIsWrapped(s);
      ParsedIsEncoded(i.rest);
      if ConstructedBit(i.tag) {
        ParsedIsEncoded(i.content);
      }
      var es := ParseAll(s).value;
      assert es[1..] == ParseAll(i.rest).value;
    }
  }

  lemma {:induction false} EncodedIsParsed(es: seq<Element>)
    requires AllFit(es, READABLE)
    ensures ParseAll(EncodeAll(es)) == Some(es)
    decreases es
  {
    if es != [] {
      var e := es[0];
      ReadWrapped(e.tag, Body(e), EncodeAll(es[1..]));
      EncodedIsParsed(es[1..]);
      if e.Constructed? {
        EncodedIsParsed(e.parts);
      }
      assert ParseItem(e.tag, Body(e)) == Some(e);
      assert es == [e] + es[1..];
    }
  }

  /** The round trip holds for exactly the forests whose bodies are short enough for the parser. */
  lemma RoundTripIff(es: seq<Element>)
    ensures ParseAll(EncodeAll(es)) == Some(es) <==> AllFit(es, READABLE)
  {
    ParseInvertsEncode(EncodeAll(es), es);
  }

  /** A forest that the builder writes and the parser refuses: one element with a body of 2^32-6 bytes. */
  lemma WritableIsNotReadable()
    ensures var es := [Primitive(4, seq(0xffff_fffa, _ => 0))];
            AllFit(es, WRITABLE) && ParseAll(EncodeAll(es)) == None
  {
    var e := Primitive(4, seq(0xffff_fffa, _ => 0));
    assert [e][1..] == [];
    ReadWrapped(e.tag, Body(e), []);
    assert EncodeAll([e]) == Wrap(e.tag, Body(e)) + [];
    assert Fits(e, WRITABLE);
  }
}
