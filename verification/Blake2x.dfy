/** The extendable output of blake2x.go: a stream of nodes, each hashed from the root with its number. */
module Blake2x {
  import opened Words
  import opened Bytes

  /** The node with a given number; the last one is asked for by its own, smaller size. */
  datatype Source = Source(leaf: (nat, uint32) -> Octets, total: nat)

  /** Nodes are 64 bytes, and there are at most 2^32 of them. */
  ghost predicate Lawful(s: Source) {
    s.total <= 64 * TWO32 && forall size, k :: |s.leaf(size, k)| == 64
  }

  /** The size that node k is configured with. */
  function SizeOf(s: Source, k: nat): nat {
    if 64 * k + 64 <= s.total then 64 else if 64 * k <= s.total then s.total - 64 * k else 0
  }

  function Node(s: Source, k: nat): Octets {
    s.leaf(SizeOf(s, k), U32(k))
  }

  /** Byte i of the output. */
  function ByteAt(s: Source, i: nat): byte
    requires Lawful(s)
  {
    Node(s, i / 64)[i % 64]
  }

  /** The n bytes from position pos on. */
  function Output(s: Source, pos: nat, n: nat): (r: Octets)
    requires Lawful(s)
    ensures |r| == n
  {
    seq<byte>(n, i requires 0 <= i < n => ByteAt(s, pos + i))
  }

  lemma OutputJoin(s: Source, pos: nat, m: nat, n: nat)
    requires Lawful(s)
    ensures Output(s, pos, m) + Output(s, pos + m, n) == Output(s, pos, m + n)
  {
  }

  /** A piece of one node. */
  lemma OutputOfNode(s: Source, k: nat, from: nat, n: nat)
    requires Lawful(s) && from + n <= 64
    ensures Output(s, 64 * k + from, n) == Node(s, k)[from..from + n]
  {
    var a, b := Output(s, 64 * k + from, n), Node(s, k)[from..from + n];
    forall i | 0 <= i < n ensures a[i] == b[i] {
      Position(k, from + i);
      assert a[i] == ByteAt(s, 64 * k + from + i);
    }
  }

  lemma Position(k: nat, r: nat)
    requires r < 64
    ensures (64 * k + r) / 64 == k && (64 * k + r) % 64 == r
  {
  }

  /** The beginning of the output: 64 bytes of each node, and of the last one as many as it was configured with. */
  ghost predicate Begins(s: Source, r: Octets)
    requires Lawful(s)
  {
    |r| <= s.total &&
    forall i :: 0 <= i < |r| ==>
      i / 64 < TWO32 && r[i] == s.leaf(if i / 64 < s.total / 64 then 64 else s.total % 64, i / 64)[i % 64]
  }

  lemma OutputBegins(s: Source, n: nat)
    requires Lawful(s) && n <= s.total
    ensures Begins(s, Output(s, 0, n))
  {
    forall i | 0 <= i < n
      ensures i / 64 < TWO32
      ensures Output(s, 0, n)[i] == s.leaf(if i / 64 < s.total / 64 then 64 else s.total % 64, i / 64)[i % 64]
    {
      SizeIsOfNode(s, i / 64);
      assert Output(s, 0, n)[i] == ByteAt(s, i);
    }
  }

  /** Nodes are configured with 64 bytes, and the last one with what is left. */
  lemma SizeIsOfNode(s: Source, k: nat)
    requires 64 * k < s.total
    ensures SizeOf(s, k) == if k < s.total / 64 then 64 else s.total % 64
  {
  }

  class Xof {
    const s: Source
    var remaining: nat
    var offset: nat
    var nodeOffset: uint32
    var block: Octets
    /** Byte 0 of the configuration: the size of the node. */
    var cfgSize: nat
    /** The number of nodes computed. */
    ghost var nodes: nat

    ghost function Position(): nat
      reads this
      requires remaining <= s.total
    {
      s.total - remaining
    }

    /** Between blocks, or inside the last one computed; only a short node at the very end changes the size. */
    ghost predicate Valid()
      reads this
    {
      && Lawful(s) && remaining <= s.total && offset < 64 && nodeOffset == U32(nodes)
      && Position() == (if offset == 0 then 64 * nodes else 64 * nodes - 64 + offset)
      && (offset > 0 ==> nodes > 0 && block == Node(s, nodes - 1))
      && (cfgSize == 64 || 64 * nodes >= s.total)
    }

    constructor (s: Source)
      requires Lawful(s)
      ensures Valid() && this.s == s && Position() == 0
    {
      this.s, remaining, offset, nodeOffset, block, cfgSize, nodes := s, s.total, 0, 0, [], 64, 0;
    }

    /** The next node, with the size the configuration now has. */
    method NextNode()
      requires Lawful(s) && nodeOffset == U32(nodes) && cfgSize == SizeOf(s, nodes)
      modifies this`block, this`nodeOffset, this`nodes
      ensures nodes == old(nodes) + 1 && nodeOffset == U32(nodes) && block == Node(s, nodes - 1)
    {
      block := s.leaf(cfgSize, nodeOffset);
      nodeOffset := if nodeOffset == 0xffff_ffff then 0 else nodeOffset + 1;
      nodes := nodes + 1;
    }

    /** What is left of the current block, if the read goes beyond it; otherwise just the read. */
    method Rest(n: nat) returns (p: Octets, done: bool)
      requires Valid() && n <= remaining && offset > 0
      modifies this`offset, this`remaining
      ensures Valid() && |p| <= n && p == Output(s, old(Position()), |p|) && Position() == old(Position()) + |p|
      ensures done ==> |p| == n
      ensures !done ==> offset == 0
    {
      OutputOfNode(s, nodes - 1, offset, Min(n, 64 - offset));
      if n < 64 - offset {
        p := block[offset..offset + n];
        offset, remaining, done := offset + n, remaining - n, true;
      } else {
        p := block[offset..64];
        remaining, offset, done := remaining - (64 - offset), 0, false;
      }
    }

    /** A node that is read in full. */
    method Whole() returns (p: Octets)
      requires Valid() && offset == 0 && remaining >= 64
      modifies this
      ensures Valid() && offset == 0 && remaining == old(remaining) - 64
      ensures |p| == 64 && p == Output(s, old(Position()), 64)
    {
      NextNode();
      OutputOfNode(s, nodes - 1, 0, 64);
      p := block;
      remaining := remaining - 64;
    }

    /** The beginning of a node, which is the last one if fewer than 64 bytes remain. */
    method Part(todo: nat) returns (p: Octets)
      requires Valid() && offset == 0 && 0 < todo < 64 && todo <= remaining
      modifies this
      ensures Valid() && remaining == old(remaining) - todo
      ensures |p| == todo && p == Output(s, old(Position()), todo)
    {
      if remaining < 64 {
        cfgSize := remaining;
      }
      NextNode();
      OutputOfNode(s, nodes - 1, 0, todo);
      p := block[..todo];
      offset := todo;
      remaining := remaining - todo;
    }

    /** Read: at most n bytes, all that are left, or the end of the output. */
    method Read(n: nat) returns (p: Option<Octets>)
      requires Valid()
      modifies this
      ensures Valid()
      ensures p == None <==> old(remaining) == 0
      ensures p == None ==> Position() == old(Position())
      ensures p.Some? ==> |p.value| == Min(n, old(remaining)) && p.value == Output(s, old(Position()), |p.value|)
      ensures p.Some? ==> Position() == old(Position()) + |p.value|
    {
      if remaining == 0 {
        return None;
      }
      var m := Min(n, remaining);
      var data: Octets, done := [], false;
      ghost var start := Position();
      if offset > 0 {
        data, done := Rest(m);
      }
      if !done {
        while m - |data| >= 64
          invariant Valid() && offset == 0 && |data| <= m && m - |data| <= remaining
          invariant data == Output(s, start, |data|) && Position() == start + |data|
        {
          data := WithWhole(data, start);
        }
        if m - |data| > 0 {
          data := WithPart(data, start, m - |data|);
        }
      }
      p := Some(data);
    }

    method WithWhole(data: Octets, ghost start: nat) returns (r: Octets)
      requires Valid() && offset == 0 && remaining >= 64
      requires data == Output(s, start, |data|) && Position() == start + |data|
      modifies this
      ensures Valid() && offset == 0 && remaining == old(remaining) - 64
      ensures |r| == |data| + 64 && r == Output(s, start, |r|) && Position() == start + |r|
    {
      OutputJoin(s, start, |data|, 64);
      var node := Whole();
      r := data + node;
    }

    method WithPart(data: Octets, ghost start: nat, todo: nat) returns (r: Octets)
      requires Valid() && offset == 0 && 0 < todo < 64 && todo <= remaining
      requires data == Output(s, start, |data|) && Position() == start + |data|
      modifies this
      ensures Valid() && remaining == old(remaining) - todo
      ensures |r| == |data| + todo && r == Output(s, start, |r|) && Position() == start + |r|
    {
      OutputJoin(s, start, |data|, todo);
      var node := Part(todo);
      r := data + node;
    }
  }

  /** However the reads are split, what they return is the next part of the one output. */
  method ReadParts(x: Xof, sizes: seq<nat>) returns (parts: seq<Octets>)
    requires x.Valid()
    modifies x
    ensures x.Valid() && x.Position() == old(x.Position()) + |Concat(parts)|
    ensures Concat(parts) == Output(x.s, old(x.Position()), |Concat(parts)|)
    ensures |parts| <= |sizes| && (|parts| < |sizes| ==> x.remaining == 0)
    decreases |sizes|
  {
    parts := [];
    if sizes != [] {
      ghost var start := x.Position();
      var p := x.Read(sizes[0]);
      if p.Some? {
        var others := ReadParts(x, sizes[1..]);
        OutputJoin(x.s, start, |p.value|, |Concat(others)|);
        parts := [p.value] + others;
        assert parts[1..] == others;
      }
    }
  }

  /** Reads of any sizes from the start: once one of them is refused, all of the output has been given. */
  method ReadAll(s: Source, sizes: seq<nat>) returns (parts: seq<Octets>)
    requires Lawful(s)
    ensures Begins(s, Concat(parts))
    ensures |parts| < |sizes| ==> |Concat(parts)| == s.total
  {
    var x := new Xof(s);
    parts := ReadParts(x, sizes);
    OutputBegins(s, |Concat(parts)|);
  }
}
