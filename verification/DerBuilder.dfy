/**
 * The growable builder of cryptobyte, which reserves room for a length, lets a child builder append
 * the contents, and then writes the length back, moving the contents along when it needs more room.
 */
module DerBuilder {
  import opened Words
  import opened Bytes
  import opened Der
  import opened Division

  // ---------------------------------------------------------------- what is meant to come out

  /** The elements that the builder accepts: it does not look at the constructed bit. */
  predicate Buildable(e: Element)
    decreases e
  {
    LowTag(e.tag) && |Body(e)| <= WRITABLE && (e.Constructed? ==> AllBuildable(e.parts))
  }

  predicate AllBuildable(es: seq<Element>)
    decreases es
  {
    es == [] || (Buildable(es[0]) && AllBuildable(es[1..]))
  }

  /** The buffer once the length of everything behind offset + lenLen is in place, if it fits. */
  function Sealed(r: seq<byte>, offset: nat, lenLen: nat, isASN1: bool): Option<seq<byte>>
    requires offset + lenLen <= |r|
  {
    var content := r[offset + lenLen..];
    if isASN1 then
      if |content| > WRITABLE then None else Some(r[..offset] + LengthBytes(|content|) + content)
    else
      if |content| >= Pow256(lenLen) then None else Some(r[..offset] + BigEndian(|content|, lenLen) + content)
  }

  lemma SealedElement(r: seq<byte>, tag: byte, content: seq<byte>)
    ensures Sealed(r + [tag] + [0] + content, |r| + 1, 1, true) ==
            if |content| > WRITABLE then None else Some(r + Wrap(tag, content))
  {
    var s := r + [tag] + [0] + content;
    assert s[|r| + 2..] == content && s[..|r| + 1] == r + [tag];
    Appended(r, tag, LengthBytes(|content|), content);
  }

  lemma Appended(r: seq<byte>, tag: byte, length: seq<byte>, content: seq<byte>)
    ensures r + [tag] + length + content == r + ([tag] + length + content)
  {
  }

  lemma {:induction false} BigEndianPrepend(n: nat, j: nat)
    ensures BigEndian(n, j + 1) == [n / Pow256(j) % 256] + BigEndian(n, j)
    ensures n / Pow256(j) / 256 == n / Pow256(j + 1)
  {
    DivideTwice(n, Pow256(j), 256);
    if j > 0 {
      BigEndianPrepend(n / 256, j - 1);
      DivideTwice(n, 256, Pow256(j - 1));
    }
  }

  lemma DivideTwice(n: nat, a: nat, b: nat)
    requires a >= 1 && b >= 1
    ensures a * b >= 1 && n / a / b == n / (a * b)
  {
    var q, r := n / a / b, n / a % b;
    Scaled(n, a, b, q, r);
    UniqueRemainder(n, a * b, q, r * a + n % a);
  }

  lemma Scaled(n: nat, a: nat, b: nat, q: nat, r: nat)
    requires a >= 1 && b >= 1 && n / a == q * b + r && r < b
    ensures n == q * (a * b) + (r * a + n % a) && r * a + n % a < a * b
  {
    assert a * (q * b + r) == q * (a * b) + r * a;
    Multiply(r, b - 1, a);
    assert (b - 1) * a == a * b - a;
  }

  lemma Multiply(r: nat, m: nat, a: nat)
    requires r <= m
    ensures r * a <= m * a
  {
    assert (m - r) * a >= 0;
  }

  // ---------------------------------------------------------------- the builder

  /** Writes n into the k bytes at position at, the last byte first; left is what did not fit. */
  method PatchLength(r: seq<byte>, at: nat, k: nat, n: nat) returns (patched: seq<byte>, left: nat)
    requires at + k <= |r|
    ensures patched == r[..at] + BigEndian(n, k) + r[at + k..] && (left == 0 <==> n < Pow256(k))
  {
    patched, left := r, n;
    var i := k;
    while i > 0
      invariant 0 <= i <= k && left == n / Pow256(k - i) && |patched| == |r|
      invariant patched[at + i..at + k] == BigEndian(n, k - i)
      invariant patched[..at + i] == r[..at + i] && patched[at + k..] == r[at + k..]
    {
      i := i - 1;
      BigEndianPrepend(n, k - i - 1);
      patched := patched[at + i := left % 256];
      left := left / 256;
    }
    assert patched == patched[..at] + patched[at..at + k] + patched[at + k..];
    AtLeastOnce(n, Pow256(k));
  }

  /**
   * The single byte reserved at offset gets the first length byte; the contents behind it move along
   * to make room for the extra ones, which still have to be written: those of length.
   */
  method MakeRoom(r: seq<byte>, offset: nat) returns (moved: seq<byte>, extra: nat, length: nat)
    requires offset + 1 <= |r| && |r| - offset - 1 <= WRITABLE
    ensures offset + 1 + extra <= |moved| && length < Pow256(extra)
    ensures moved[..offset + 1] + BigEndian(length, extra) + moved[offset + 1 + extra..] ==
            r[..offset] + LengthBytes(|r| - offset - 1) + r[offset + 1..]
  {
    length := |r| - offset - 1;
    var lenLen, lenByte;
    if length > 0xff_ffff {
      lenLen, lenByte := 5, 0x84;
    } else if length > 0xffff {
      lenLen, lenByte := 4, 0x83;
    } else if length > 0xff {
      lenLen, lenByte := 3, 0x82;
    } else if length > 0x7f {
      lenLen, lenByte := 2, 0x81;
    } else {
      lenLen, lenByte, length := 1, length, 0;
    }
    ShortLength(|r| - offset - 1, lenLen, lenByte);
    moved := r[offset := lenByte];
    extra := lenLen - 1;
    var start := offset + 1;
    assert moved[..start] == r[..offset] + [lenByte] && moved[start..] == r[start..];
    if extra != 0 {
      moved := MoveAlong(moved, start, extra);
    }
  }

  /** Grows the buffer by extra bytes and copies everything from start on that much further. */
  method MoveAlong(r: seq<byte>, start: nat, extra: nat) returns (moved: seq<byte>)
    requires start <= |r|
    ensures |moved| == |r| + extra && moved[..start] == r[..start] && moved[start + extra..] == r[start..]
  {
    moved := r + seq(extra, _ => 0);
    moved := moved[..start + extra] + moved[start..|moved| - extra];
  }

  /** Writes the pending length of a child that has filled the buffer r. */
  method Seal(r: seq<byte>, offset: nat, lenLen: nat, isASN1: bool) returns (s: Option<seq<byte>>)
    requires offset + lenLen <= |r| && (isASN1 ==> lenLen == 1)
    ensures s == Sealed(r, offset, lenLen, isASN1)
  {
    var length := |r| - lenLen - offset;
    var patched, left;
    if isASN1 {
      if length > 0xffff_fffe {
        return None;
      }
      var moved, extra;
      moved, extra, length := MakeRoom(r, offset);
      patched, left := PatchLength(moved, offset + 1, extra, length);
    } else {
      patched, left := PatchLength(r, offset, lenLen, length);
    }
    s := if left != 0 then None else Some(patched);
  }

  class Builder {
    var failed: bool
    var result: seq<byte>
    var child: Builder?
    var offset: nat
    var pendingLenLen: nat
    var pendingIsASN1: bool

    constructor (buffer: seq<byte>, offset: nat, lenLen: nat, isASN1: bool)
      ensures !failed && result == buffer && child == null
      ensures this.offset == offset && pendingLenLen == lenLen && pendingIsASN1 == isASN1
    {
      failed, result, child := false, buffer, null;
      this.offset, pendingLenLen, pendingIsASN1 := offset, lenLen, isASN1;
    }

    /** Appends bytes, unless an error has happened; with a child pending the original panics. */
    method Add(bytes: seq<byte>)
      requires child == null
      modifies this`result
      ensures result == if failed then old(result) else old(result) + bytes
    {
      if !failed {
        result := result + bytes;
      }
    }

    /** The first half of addLengthPrefixed: room for the length and a child behind it. */
    method BeginPrefixed(lenLen: nat, isASN1: bool) returns (c: Builder)
      requires !failed && child == null
      modifies this`result, this`child
      ensures fresh(c) && child == c && result == old(result) + seq(lenLen, _ => 0)
      ensures !c.failed && c.result == result && c.child == null
      ensures c.offset == |old(result)| && c.pendingLenLen == lenLen && c.pendingIsASN1 == isASN1
    {
      var at := |result|;
      Add(seq(lenLen, _ => 0));
      c := new Builder(result, at, lenLen, isASN1);
      child := c;
    }

    /** The second half of addLengthPrefixed: the pending child becomes part of the result. */
    method FlushChild()
      requires child != null ==> child != this && child.child == null
      requires child != null && !child.failed ==> child.offset + child.pendingLenLen <= |child.result|
      requires child != null && child.pendingIsASN1 ==> child.pendingLenLen == 1
      modifies this`child, this`failed, this`result
      ensures child == null
      ensures old(child) == null ==> failed == old(failed) && result == old(result)
      ensures old(child) != null ==>
        var c := old(child);
        var s := if old(c.failed) then Option.None
                 else Sealed(old(c.result), old(c.offset), old(c.pendingLenLen), old(c.pendingIsASN1));
        failed == (old(failed) || s == None) && result == if s == None then old(result) else s.value
    {
      if child == null {
        return;
      }
      var c := child;
      child := null;
      if c.failed {
        failed := true;
        return;
      }
      var s := Seal(c.result, c.offset, c.pendingLenLen, c.pendingIsASN1);
      if s == None {
        failed := true;
        return;
      }
      result := s.value;
    }

    /** AddASN1 with the contents of e, whose parts are added by the child. */
    method AddElement(e: Element)
      requires child == null
      modifies this`result, this`child, this`failed
      ensures child == null && failed == (old(failed) || !Buildable(e))
      ensures !failed ==> result == old(result) + Wrap(e.tag, Body(e))
      decreases e
    {
      if failed {
        return;
      }
      if !LowTag(e.tag) {
        failed := true;
        return;
      }
      Add([e.tag]);
      var c := BeginPrefixed(1, true);
      assert c.result == old(result) + [e.tag] + [0];
      match e {
        case Primitive(_, content) => c.Add(content);
        case Constructed(_, parts) => c.AddAll(parts);
      }
      if !c.failed {
        assert c.result == old(result) + [e.tag] + [0] + Body(e);
        SealedElement(old(result), e.tag, Body(e));
      }
      FlushChild();
    }

    method AddAll(es: seq<Element>)
      requires child == null
      modifies this`result, this`child, this`failed
      ensures child == null && failed == (old(failed) || !AllBuildable(es))
      ensures !failed ==> result == old(result) + EncodeAll(es)
      decreases es
    {
      if es != [] {
        AddElement(es[0]);
        ghost var first, rest := Wrap(es[0].tag, Body(es[0])), EncodeAll(es[1..]);
        AddAll(es[1..]);
        assert old(result) + first + rest == old(result) + (first + rest);
      } else {
        assert result == old(result) + [];
      }
    }
  }

  lemma ShortLength(n: nat, lenLen: nat, lenByte: byte)
    requires n <= WRITABLE
    requires lenLen == (if n > 0xff_ffff then 5 else if n > 0xffff then 4 else if n > 0xff then 3
             else if n > 0x7f then 2 else 1)
    requires lenByte == if lenLen == 1 then n else 0x80 + (lenLen - 1)
    ensures LengthBytes(n) == [lenByte] + BigEndian(if lenLen == 1 then 0 else n, lenLen - 1)
    ensures lenLen != 1 ==> n < Pow256(lenLen - 1)
  {
    Powers();
  }

  /** A forest is built exactly when it is buildable, and it comes out in its encoding. */
  method Build(es: seq<Element>) returns (r: Option<seq<byte>>)
    ensures r == if AllBuildable(es) then Some(EncodeAll(es)) else None
  {
    var b := new Builder([], 0, 0, false);
    b.AddAll(es);
    r := if b.failed then None else Some(b.result[b.offset..]);
  }
}
