/**
 * The streaming BLAKE2b digest of blake2b.go against the definition of section 3.3 of RFC 7693. The
 * compression function is a parameter; what is modelled is which blocks it is given, with which
 * counter, and in which order.
 */
module Blake2b {
  import opened Words
  import opened Bytes

  type State = seq<uint64>

  /** The compression function: state, the counter of 128 bits, the final flag, a block. */
  type Compression = (State, nat, bool, Octets) -> State

  const TWO128 := 0x1_0000_0000_0000_0000_0000_0000_0000_0000

  const BLOCK := 128

  // ---------------------------------------------------------------- the definition

  function Padded(m: Octets): (b: Octets)
    requires |m| <= BLOCK
    ensures |b| == BLOCK
    ensures forall i :: 0 <= i < 128 ==> b[i] == if i < |m| then m[i] else 0
  {
    m + seq(BLOCK - |m|, _ => 0)
  }

  /**
   * The hash of m when t bytes have gone before: every block but the last is compressed with the
   * number of bytes so far, and the last one, which is empty only if all of m is, as final.
   */
  function Hash(F: Compression, h: State, t: nat, m: Octets): State
    decreases |m|, h
  {
    if |m| <= 128 then F(h, t + |m|, true, Padded(m))
    else Hash(F, F(h, t + 128, false, m[..128]), t + 128, m[128..])
  }

  /** How many blocks of m are not final: all but the last, which is empty only if m is. */
  function Whole(m: Octets): nat {
    if m == [] then 0 else (|m| - 1) / 128
  }

  /** The state after the first n blocks of m, with the number of bytes up to the end of each of them. */
  function After(F: Compression, h: State, t: nat, m: Octets, n: nat): State
    requires 128 * n <= |m|
  {
    if n == 0 then h else F(After(F, h, t, m, n - 1), t + 128 * n, false, m[128 * (n - 1)..128 * n])
  }

  /** The bytes that the final compression gets: what the other blocks leave, and zeros behind it. */
  ghost predicate IsLast(b: Octets, m: Octets) {
    |b| == 128 && forall i :: 0 <= i < 128 ==> b[i] == if 128 * Whole(m) + i < |m| then m[128 * Whole(m) + i] else 0
  }

  /**
   * Section 3.3 of RFC 7693: block by block in order, and the last one, padded with zeros behind the
   * message, with the number of all bytes and the final flag.
   */
  ghost predicate ByBlocks(F: Compression, h: State, t: nat, m: Octets, r: State) {
    exists b :: IsLast(b, m) && r == F(After(F, h, t, m, Whole(m)), t + |m|, true, b)
  }

  lemma {:induction false} HashIsByBlocks(F: Compression, h: State, t: nat, m: Octets)
    ensures ByBlocks(F, h, t, m, Hash(F, h, t, m))
    decreases |m|
  {
    if |m| <= 128 {
      assert IsLast(Padded(m), m);
    } else {
      var rest, h' := m[128..], F(h, t + 128, false, m[..128]);
      HashIsByBlocks(F, h', t + 128, rest);
      var b :| IsLast(b, rest) && Hash(F, h', t + 128, rest) ==
                                  F(After(F, h', t + 128, rest, Whole(rest)), t + 128 + |rest|, true, b);
      OneMore(F, h, t, m, Whole(rest));
      assert Whole(m) == Whole(rest) + 1;
      assert IsLast(b, m);
    }
  }

  lemma {:induction false} OneMore(F: Compression, h: State, t: nat, m: Octets, n: nat)
    requires 128 * (n + 1) <= |m|
    ensures After(F, F(h, t + 128, false, m[..128]), t + 128, m[128..], n) == After(F, h, t, m, n + 1)
  {
    if n == 0 {
      assert After(F, h, t, m, 0) == h && m[0..128] == m[..128];
    } else {
      OneMore(F, h, t, m, n - 1);
      assert m[128..][128 * (n - 1)..128 * n] == m[128 * n..128 * (n + 1)];
    }
  }

  // ---------------------------------------------------------------- whole blocks

  /** The state after compressing whole blocks, none of them final. */
  function Chain(F: Compression, h: State, t: nat, m: Octets): State
    decreases |m|, h
  {
    if |m| < 128 then h else Chain(F, F(h, t + 128, false, m[..128]), t + 128, m[128..])
  }

  lemma {:induction false} ChainAppend(F: Compression, h: State, t: nat, m: Octets, n: Octets)
    requires |m| % 128 == 0
    ensures Chain(F, h, t, m + n) == Chain(F, Chain(F, h, t, m), t + |m|, n)
    decreases |m|, h
  {
    if m == [] {
      assert m + n == n;
    } else {
      assert (m + n)[..128] == m[..128] && (m + n)[128..] == m[128..] + n;
      ChainAppend(F, F(h, t + 128, false, m[..128]), t + 128, m[128..], n);
    }
  }

  /** Whole blocks can be compressed ahead as long as something is left for the final one. */
  lemma {:induction false} HashAfterChain(F: Compression, h: State, t: nat, m: Octets, n: Octets)
    requires |m| % 128 == 0 && (m != [] ==> n != [])
    ensures Hash(F, h, t, m + n) == Hash(F, Chain(F, h, t, m), t + |m|, n)
    decreases |m|, h
  {
    if m == [] {
      assert m + n == n;
    } else {
      assert (m + n)[..128] == m[..128] && (m + n)[128..] == m[128..] + n;
      HashAfterChain(F, F(h, t + 128, false, m[..128]), t + 128, m[128..], n);
    }
  }

  // ---------------------------------------------------------------- the two-word counter

  function Number(c0: uint64, c1: uint64): nat {
    c0 as int + 0x1_0000_0000_0000_0000 * c1 as int
  }

  /** The words c0 and c1 hold t, which may be below zero for a moment. */
  predicate Counts(c0: uint64, c1: uint64, t: int) {
    c0 as int + 0x1_0000_0000_0000_0000 * c1 as int == if t < 0 then t + TWO128 else t
  }

  /** c0 += BlockSize with a carry into c1. */
  method AddBlock(c0: uint64, c1: uint64, ghost t: int) returns (d0: uint64, d1: uint64)
    requires Counts(c0, c1, t) && -128 <= t < TWO128 - 128
    ensures Counts(d0, d1, t + 128)
  {
    d0, d1 := U64(c0 as int + 128), c1;
    if d0 < 128 {
      d1 := U64(c1 as int + 1);
    }
  }

  /** c0 -= remaining with a borrow from c1. */
  method TakeBack(c0: uint64, c1: uint64, remaining: nat, ghost t: int) returns (d0: uint64, d1: uint64)
    requires Counts(c0, c1, t) && 0 <= t < TWO128 && remaining <= 128
    ensures Counts(d0, d1, t - remaining)
  {
    d0, d1 := c0, c1;
    if c0 < remaining {
      d1 := U64(c1 as int - 1);
    }
    d0 := U64(c0 as int - remaining);
  }

  // ---------------------------------------------------------------- the code

  /** hashBlocks on blocks that are not final: the counter goes up before each of them. */
  method HashBlocks(F: Compression, h: State, c0: uint64, c1: uint64, blocks: Octets, ghost t: nat)
    returns (h': State, d0: uint64, d1: uint64)
    requires |blocks| % 128 == 0 && Counts(c0, c1, t) && t + |blocks| < TWO128
    ensures Counts(d0, d1, t + |blocks|) && h' == Chain(F, h, t, blocks)
  {
    h', d0, d1 := h, c0, c1;
    var i := 0;
    assert blocks[0..] == blocks;
    while i < |blocks|
      invariant 0 <= i <= |blocks| && i % 128 == 0 && Counts(d0, d1, t + i)
      invariant Chain(F, h', t + i, blocks[i..]) == Chain(F, h, t, blocks)
    {
      d0, d1 := AddBlock(d0, d1, t + i);
      assert blocks[i..][..128] == blocks[i..i + 128] && blocks[i..][128..] == blocks[i + 128..];
      h' := F(h', Number(d0, d1), false, blocks[i..i + 128]);
      i := i + 128;
    }
  }

  /** The final block, with the counter first taken back by what it lacks. */
  method Finish(F: Compression, h: State, c0: uint64, c1: uint64, last: Octets, ghost t: nat) returns (r: State)
    requires |last| <= 128 && Counts(c0, c1, t) && t + 128 < TWO128
    ensures r == Hash(F, h, t, last)
  {
    var d0, d1 := TakeBack(c0, c1, 128 - |last|, t);
    d0, d1 := AddBlock(d0, d1, t - (128 - |last|));
    r := F(h, Number(d0, d1), true, Padded(last));
  }

  /** How much of an input is compressed at once: whole blocks, but never the last one. */
  method Bulk(length: nat) returns (n: nat)
    ensures n % 128 == 0 && n <= length <= n + 128 && (n == length ==> n == 0)
  {
    n := 0;
    if length > 128 {
      n := length - length % 128;
      if length == n {
        n := n - 128;
      }
    }
  }

  /** checkSum: the hash of data in one go. */
  method CheckSum(F: Compression, iv: State, data: Octets) returns (r: State)
    requires |data| + 128 < TWO128
    ensures r == Hash(F, iv, 0, data) && ByBlocks(F, iv, 0, data, r)
  {
    HashIsByBlocks(F, iv, 0, data);
    var n := Bulk(|data|);
    var h, c0, c1 := HashBlocks(F, iv, 0, 0, data[..n], 0);
    HashAfterChain(F, iv, 0, data[..n], data[n..]);
    assert data == data[..n] + data[n..];
    r := Finish(F, h, c0, c1, data[n..], n);
  }

  class Digest {
    const F: Compression
    const iv: State
    var h: State
    var c0: uint64
    var c1: uint64
    const block: array<byte>
    var offset: nat
    /** What is already compressed. */
    ghost var absorbed: Octets
    /** Everything that was written. */
    ghost var written: Octets

    /** Something is kept back for the final block as soon as anything is compressed. */
    ghost predicate Valid()
      reads this, block
    {
      Ready() && (absorbed != [] ==> offset > 0) && written == absorbed + block[..offset]
    }

    ghost predicate Ready()
      reads this, block
    {
      && block.Length == 128 && offset <= 128 && |absorbed| % 128 == 0
      && Counts(c0, c1, |absorbed|)
      && h == Chain(F, iv, 0, absorbed)
    }

    /** A digest without a key, after Reset. */
    constructor (F: Compression, iv: State)
      ensures Valid() && fresh(block) && this.F == F && this.iv == iv && absorbed == [] && offset == 0 && written == []
    {
      this.F, this.iv, h, c0, c1 := F, iv, iv, 0, 0;
      block := new byte[128];
      offset, absorbed, written := 0, [], [];
    }

    /** Reset with a key: padded to a block, it counts as the first thing written. */
    method SetKey(key: Octets)
      requires Valid() && absorbed == [] && offset == 0 && 0 < |key| <= 128
      modifies this`offset, this`written, block
      ensures Valid() && written == Padded(key)
    {
      Fill(Padded(key));
      written := Padded(key);
    }

    /** Copies p into the block behind the bytes that are already there. */
    method Fill(p: Octets)
      requires block.Length == 128 && offset + |p| <= 128
      modifies block, this`offset
      ensures offset == old(offset) + |p| && block[..offset] == old(block[..offset]) + p
    {
      forall i | 0 <= i < |p| {
        block[offset + i] := p[i];
      }
      offset := offset + |p|;
      assert block[..old(offset)] == old(block[..offset]);
    }
  
    /** Write: what does not fit in the block is compressed, always keeping something for the end. */
    method Write(p: Octets)
      requires Valid() && |written| + |p| < TWO128
      modifies this, block
      ensures Valid() && written == old(written) + p
    {
      var left := p;
      if offset > 0 {
        if |left| <= 128 - offset {
          Fill(left);
          written := written + p;
          return;
        }
        left := TopUp(left);
      }
      WriteBlocks(left);
      written := old(written) + p;
    }

    /** Completes the block with the front of p and compresses it. */
    method TopUp(p: Octets) returns (left: Octets)
      requires Valid() && |p| > 128 - offset && |written| + |p| < TWO128
      modifies this, block
      ensures Ready() && offset == 0 && left != [] && absorbed + left == old(written) + p && written == old(written)
    {
      var remaining := 128 - offset;
      ghost var front, before := block[..offset], absorbed;
      Fill(p[..remaining]);
      ToppedUp(before, front, p, remaining);
      Absorb(block[..128]);
      left := p[remaining..];
    }

    /** Compresses what is more than a block and keeps the rest. */
    method WriteBlocks(p: Octets)
      requires Ready() && offset == 0 && (absorbed != [] ==> p != []) && |absorbed| + |p| < TWO128
      modifies this, block
      ensures Ready() && (absorbed != [] ==> offset > 0) && absorbed + block[..offset] == old(absorbed) + p
    {
      ghost var was := absorbed;
      var n := Bulk(|p|);
      if n > 0 {
        Absorb(p[..n]);
      }
      assert absorbed == was + p[..n];
      if |p| > n {
        Fill(p[n..]);
      }
      assert p == p[..n] + p[n..];
    }

    /** Compresses whole blocks; the block buffer counts as empty afterwards. */
    method Absorb(blocks: Octets)
      requires Ready() && |blocks| % 128 == 0 && |absorbed| + |blocks| < TWO128
      modifies this`h, this`c0, this`c1, this`offset, this`absorbed
      ensures Ready() && offset == 0 && absorbed == old(absorbed) + blocks
    {
      ChainAppend(F, iv, 0, absorbed, blocks);
      WholeBlocks(|absorbed|, |blocks|);
      h, c0, c1 := HashBlocks(F, h, c0, c1, blocks, |absorbed|);
      absorbed := absorbed + blocks;
      offset := 0;
    }

    /** Sum: the hash of everything written, leaving the digest as it is. */
    method Sum() returns (r: State)
      requires Valid() && |written| + 128 < TWO128
      ensures r == Hash(F, iv, 0, written) && ByBlocks(F, iv, 0, written, r)
    {
      HashIsByBlocks(F, iv, 0, written);
      HashAfterChain(F, iv, 0, absorbed, block[..offset]);
      r := Finish(F, h, c0, c1, block[..offset], |absorbed|);
    }
  }

  /** A block completed with the front of p is what was written and the front of p. */
  lemma ToppedUp(before: Octets, front: Octets, p: Octets, n: nat)
    requires n < |p|
    ensures before + (front + p[..n]) + p[n..] == before + front + p
    ensures |before| + |front + p[..n]| < |before + front| + |p|
  {
    assert p == p[..n] + p[n..];
  }

  lemma WholeBlocks(m: nat, n: nat)
    requires m % 128 == 0 && n % 128 == 0
    ensures (m + n) % 128 == 0
  {
  }

  /** Writes that follow one another add up. */
  method WriteParts(d: Digest, parts: seq<Octets>)
    requires d.Valid() && |d.written| + |Concat(parts)| < TWO128
    modifies d, d.block
    ensures d.Valid() && d.written == old(d.written) + Concat(parts)
  {
    if parts != [] {
      ghost var was := d.written;
      d.Write(parts[0]);
      WriteParts(d, parts[1..]);
      Regroup(was, parts[0], Concat(parts[1..]));
    }
  }

  /** However a message is split into writes, the digest is the one-shot checksum of the whole. */
  method SplitIndependent(F: Compression, iv: State, parts: seq<Octets>) returns (streamed: State, oneShot: State)
    requires |Concat(parts)| + 128 < TWO128
    ensures streamed == oneShot == Hash(F, iv, 0, Concat(parts))
  {
    var d := new Digest(F, iv);
    WriteParts(d, parts);
    assert [] + Concat(parts) == Concat(parts);
    streamed := d.Sum();
    oneShot := CheckSum(F, iv, Concat(parts));
  }
}
