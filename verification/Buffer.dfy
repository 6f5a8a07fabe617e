/**
 * The receive buffer of buffer.go: a linked list of byte slices between the
 * packet loop, which appends, and a reader, which drains from the head.
 */
module ReceiveBuffer {
  import opened Words

  class Element {
    var buf: seq<byte>
    var next: Element?

    constructor (buf: seq<byte>)
      ensures this.buf == buf && next == null
    {
      this.buf, this.next := buf, null;
    }
  }

  /** How a call of Read ends: with data, at the end of the stream, or waiting for the producer. */
  datatype Outcome = Data | Eof | Wait

  /** The bytes of a chain of elements, first to last. */
  function Concat(spine: seq<Element>): seq<byte>
    reads spine
  {
    if spine == [] then [] else spine[0].buf + Concat(spine[1..])
  }

  lemma {:induction false} ConcatAppend(spine: seq<Element>, e: Element)
    ensures Concat(spine + [e]) == Concat(spine) + e.buf
  {
    if spine == [] {
      assert spine + [e] == [e];
    } else {
      ConcatAppend(spine[1..], e);
      assert (spine + [e])[1..] == spine[1..] + [e];
    }
  }

  class Buffer {
    var head: Element
    var tail: Element
    var closed: bool
    ghost var spine: seq<Element>

    ghost predicate Valid()
      reads this, spine
    {
      && |spine| > 0
      && head == spine[0]
      && tail == spine[|spine| - 1]
      && (forall i, j :: 0 <= i < j < |spine| ==> spine[i] != spine[j])
      && (forall i :: 0 <= i < |spine| - 1 ==> spine[i].next == spine[i + 1])
    }

    /** The bytes written and not yet read. */
    ghost function Contents(): seq<byte>
      reads this, spine
    {
      Concat(spine)
    }

    constructor ()
      ensures Valid() && Contents() == [] && !closed && fresh(spine)
    {
      var e := new Element([]);
      head, tail, closed := e, e, false;
      spine := [e];
      new;
      assert Concat(spine) == e.buf + Concat([]);
    }

    method Write(data: seq<byte>)
      requires Valid()
      modifies this, spine
      ensures Valid() && closed == old(closed)
      ensures Contents() == old(Contents()) + data
      ensures forall e <- spine :: e in old(spine) || fresh(e)
    {
      var e := new Element(data);
      Link(e);
      tail := e;
      ghost var before := spine;
      spine := spine + [e];
      ConcatAppend(before, e);
    }

    /** Hangs e behind the last element. */
    method Link(e: Element)
      requires Valid() && e !in spine
      modifies tail
      ensures tail.next == e && (forall i :: 0 <= i < |spine| - 1 ==> spine[i].next == old(spine[i].next))
      ensures e.buf == old(e.buf) && Contents() == old(Contents())
    {
      tail.next := e;
      SameBufs(spine);
    }

    twostate lemma {:induction false} SameBufs(s: seq<Element>)
      requires forall x <- s :: x.buf == old(x.buf)
      ensures Concat(s) == old(Concat(s))
    {
      if s != [] {
        SameBufs(s[1..]);
      }
    }

    method CloseBuffer()
      requires Valid()
      modifies this
      ensures Valid() && closed && spine == old(spine) && Contents() == old(Contents())
    {
      closed := true;
    }

    /**
     * One call of Read on a destination of length |dst|. It takes as many bytes as are
     * there, across element borders; it reports Eof only when nothing is left to
     * deliver, and Wait where the source blocks on the condition variable.
     */
    method Read(dst: array<byte>) returns (n: nat, outcome: Outcome)
      requires Valid()
      modifies this, spine, dst
      ensures Valid() && closed == old(closed)
      ensures n == Min(dst.Length, |old(Contents())|)
      ensures dst[..n] == old(Contents())[..n] && dst[n..] == old(dst[n..])
      ensures Contents() == old(Contents())[n..]
      ensures outcome.Eof? <==> dst.Length > 0 && old(Contents()) == [] && closed
      ensures outcome.Wait? <==> dst.Length > 0 && old(Contents()) == [] && !closed
      ensures forall e <- spine :: e in old(spine)
    {
      n := 0;
      ghost var all := Contents();
      while n < dst.Length
        invariant Valid() && closed == old(closed)
        invariant n <= dst.Length && n <= |all|
        invariant dst[..n] == all[..n] && dst[n..] == old(dst[n..])
        invariant Contents() == all[n..]
        invariant forall e <- spine :: e in old(spine)
        decreases |Contents()|, |spine|
      {
        if |head.buf| > 0 {
          assert head in spine;
          n := TakeNext(dst, n, all);
          continue;
        }
        if head != tail {
          Advance();
          continue;
        }
        OnlyHead();
        if n > 0 {
          break;
        }
        return n, if closed then Eof else Wait;
      }
      outcome := Data;
    }

    lemma OnlyHead()
      requires Valid() && head == tail && head.buf == []
      ensures Contents() == []
    {
      assert spine == [head];
      assert Concat(spine) == head.buf + Concat(spine[1..]);
    }

    /** An empty head element makes place for the next one. */
    method Advance()
      requires Valid() && head.buf == [] && head != tail
      modifies this`head, this`spine
      ensures Valid() && spine == old(spine[1..]) && Contents() == old(Contents())
    {
      assert Concat(spine) == Concat(spine[1..]);
      head := head.next;
      spine := spine[1..];
    }

    /** The copy step against all the bytes that there were. */
    method TakeNext(dst: array<byte>, n: nat, ghost all: seq<byte>) returns (m: nat)
      requires Valid() && n < dst.Length && |head.buf| > 0 && n <= |all|
      requires dst[..n] == all[..n] && Contents() == all[n..]
      modifies head, dst
      ensures Valid() && n < m <= dst.Length && m <= |all|
      ensures dst[..m] == all[..m] && dst[m..] == old(dst[m..]) && Contents() == all[m..]
    {
      m := TakeFromHead(dst, n);
      assert all == all[..n] + all[n..];
    }

    /** The copy step of the loop: as much of the head element as fits. */
    method TakeFromHead(dst: array<byte>, n: nat) returns (m: nat)
      requires Valid() && n < dst.Length && |head.buf| > 0
      modifies head, dst
      ensures Valid() && n < m <= dst.Length && m - n <= |old(Contents())|
      ensures dst[..m] == old(dst[..n] + Contents())[..m]
      ensures dst[m..] == old(dst[m..])
      ensures Contents() == old(Contents())[m - n..]
    {
      var r := Min(dst.Length - n, |head.buf|);
      m := n + r;
      ghost var b := head.buf;
      forall i | n <= i < m {
        dst[i] := head.buf[i - n];
      }
      assert dst[..m] == old(dst[..n]) + b[..r];
      head.buf := head.buf[r..];
      SameBufs(spine[1..]);
      assert b == b[..r] + head.buf;
    }
  }
}
