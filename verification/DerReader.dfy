/** The cursor of cryptobyte's String: every reader advances it past what it returns. */
module DerReader {
  import opened Words
  import opened Bytes
  import opened Der
  import DerBuilder
  import opened Division

  /** The number in the bytes of v, shifted together in 32 bits. */
  method ReadUnsigned(v: seq<byte>) returns (n: uint32)
    requires |v| <= 4
    ensures n == FromBigEndian(v)
  {
    Powers();
    n := 0;
    var i := 0;
    while i < |v|
      invariant 0 <= i <= |v| && n == FromBigEndian(v[..i])
    {
      assert v[..i + 1][..i] == v[..i];
      FromBigEndianInverse(v[..i]);
      Smaller(i);
      n := n * 256 + v[i];
      i := i + 1;
    }
    assert v[..i] == v;
  }

  lemma Smaller(i: nat)
    requires i < 4
    ensures Pow256(i) <= 0x100_0000
  {
    Powers();
    if i == 0 {
    } else if i == 1 {
    } else if i == 2 {
    } else {
    }
  }

  predicate HasPrefixed(s: seq<byte>, lenLen: nat) {
    lenLen <= |s| && lenLen + FromBigEndian(s[..lenLen]) <= |s|
  }

  /** What the builder seals behind a fixed-size length is read back: the contents, and what follows them. */
  lemma PrefixedRoundTrip(content: seq<byte>, rest: seq<byte>, lenLen: nat)
    requires |content| < Pow256(lenLen)
    ensures var s, n := BigEndian(|content|, lenLen) + content + rest, lenLen + |content|;
            && HasPrefixed(s, lenLen) && FromBigEndian(s[..lenLen]) == |content|
            && s[lenLen..n] == content && s[n..] == rest
  {
    BigEndianInverse(|content|, lenLen);
    UniqueRemainder(|content|, Pow256(lenLen), 0, |content|);
    ThreeParts(BigEndian(|content|, lenLen), content, rest);
  }

  /** The length octets of the long form: minimal, and such that the whole element is below 2^32 bytes. */
  method LongLength(s: seq<byte>, lenLen: nat) returns (ok: bool, len32: uint32)
    requires |s| >= 2
    ensures ok <==> 0 < lenLen <= 4 && 2 + lenLen <= |s| &&
                    var n := FromBigEndian(s[2..2 + lenLen]);
                    n >= 128 && n / Pow256(lenLen - 1) != 0 && U32(2 + lenLen + n) >= n
    ensures ok ==> len32 == FromBigEndian(s[2..2 + lenLen])
  {
    if lenLen == 0 || lenLen > 4 || |s| < 2 + lenLen {
      return false, 0;
    }
    len32 := ReadUnsigned(s[2..2 + lenLen]);
    ok := len32 >= 128 && len32 / Pow256(lenLen - 1) != 0 && U32(2 + lenLen + len32) >= len32;
  }

  /** The first octets of an element: how many they are, and how many it has in all. */
  method ReadHeader(s: seq<byte>) returns (ok: bool, header: nat, length: nat)
    ensures ok ==> 0 < header <= |s| && header <= length && ReadAny(s) == Cut(s, header, length - header)
    ensures !ok ==> ReadAny(s) == None
  {
    if |s| < 2 || s[0] % 32 == 31 {
      return false, 0, 0;
    }
    if s[1] < 0x80 {
      return true, 2, s[1] + 2;
    }
    ok, header, length := ReadLongHeader(s, s[1] - 0x80);
  }

  method ReadLongHeader(s: seq<byte>, lenLen: nat) returns (ok: bool, header: nat, length: nat)
    requires |s| >= 2
    ensures ok ==> 0 < header <= |s| && header <= length && ReadLongForm(s, lenLen) == Cut(s, header, length - header)
    ensures !ok ==> ReadLongForm(s, lenLen) == None
  {
    var len32;
    ok, len32 := LongLength(s, lenLen);
    header, length := 2 + lenLen, 0;
    if ok {
      NoOverflow(header, len32);
      length := U32(header + len32);
    }
  }

  /** The 32-bit sum is the sum if it is not smaller than a summand. */
  lemma NoOverflow(header: nat, n: uint32)
    requires header < 0x1_0000_0000 && U32(header + n) >= n
    ensures U32(header + n) == header + n
  {
  }

  class Cursor {
    var s: seq<byte>

    constructor (bytes: seq<byte>)
      ensures s == bytes
    {
      s := bytes;
    }

    /** Takes n bytes off the front, or nothing at all. */
    method Read(n: nat) returns (ok: bool, v: seq<byte>)
      modifies this
      ensures ok == (n <= |old(s)|) && old(s) == v + s
      ensures |v| == if ok then n else 0
    {
      ok, v := false, [];
      if n <= |s| {
        ok, v := true, s[..n];
        s := s[n..];
      }
    }

    /** A child behind a length of lenLen bytes; a missing child still loses its length bytes. */
    method ReadLengthPrefixed(lenLen: nat) returns (ok: bool, child: seq<byte>)
      requires lenLen <= 3
      modifies this
      ensures ok == HasPrefixed(old(s), lenLen)
      ensures ok ==> old(s) == old(s)[..lenLen] + child + s && |child| == FromBigEndian(old(s)[..lenLen])
      ensures !ok ==> s == old(s) || (lenLen <= |old(s)| && s == old(s)[lenLen..])
    {
      child := [];
      var lenBytes;
      ok, lenBytes := Read(lenLen);
      if ok {
        assert lenBytes == old(s)[..lenLen];
        var n := ReadUnsigned(lenBytes);
        ok, child := Read(n);
      }
    }

    /** One element: readASN1, which leaves the cursor alone when it refuses. */
    method ReadASN1() returns (ok: bool, tag: byte, out: seq<byte>)
      modifies this
      ensures ok == ReadAny(old(s)).Some?
      ensures ok ==> ReadAny(old(s)).value == Item(tag, out, s)
      ensures !ok ==> s == old(s)
    {
      ok, tag, out := false, 0, [];
      var fine, header, length := ReadHeader(s);
      if !fine {
        return;
      }
      tag := s[0];
      ghost var before := s;
      var element;
      ok, element := Read(length);
      if ok {
        out := element[header..];
        assert before[..length] == element;
      }
    }

    /** Reads the cursor to its end as a forest of elements. */
    method ReadForest() returns (r: Option<seq<Element>>)
      modifies this
      ensures r == ParseAll(old(s))
      decreases |s|
    {
      if s == [] {
        return Some([]);
      }
      var ok, tag, out := ReadASN1();
      if !ok {
        return None;
      }
      var first := Some(Primitive(tag, out));
      if ConstructedBit(tag) {
        var inner := new Cursor(out);
        var parts := inner.ReadForest();
        first := if parts == None then None else Some(Constructed(tag, parts.value));
      }
      var others := ReadForest();
      r := if first == None || others == None then None else Some([first.value] + others.value);
    }
  }

  /** Building a forest and reading the bytes gives the forest back, exactly if no body is too long for the reader. */
  method BuildAndRead(es: seq<Element>) returns (written: bool, read: Option<seq<Element>>)
    ensures written <==> DerBuilder.AllBuildable(es)
    ensures written ==> (read == Some(es) <==> AllFit(es, READABLE))
  {
    read := None;
    var bytes := DerBuilder.Build(es);
    written := bytes.Some?;
    if written {
      var c := new Cursor(bytes.value);
      read := c.ReadForest();
      RoundTripIff(es);
    }
  }
}
