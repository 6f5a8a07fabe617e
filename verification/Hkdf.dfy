/** The output of HKDF-Expand, section 2.3 of RFC 5869, as hkdf.go hands it out piece by piece. */
module Hkdf {
  import opened Words
  import opened Bytes

  /** The keyed hash and the length of what it returns. */
  datatype Expander = Expander(mac: Octets -> Octets, size: nat, info: Octets)

  ghost predicate Lawful(e: Expander) {
    e.size > 0 && forall m :: |e.mac(m)| == e.size
  }

  /** T(0) is empty and T(i) is the MAC of T(i-1), the info and the number i. */
  function T(e: Expander, i: nat): Octets
    requires i <= 255
  {
    if i == 0 then [] else e.mac(T(e, i - 1) + e.info + [i])
  }

  /** T(1) to T(k), one after the other. */
  function Stream(e: Expander, k: nat): Octets
    requires k <= 255
  {
    if k == 0 then [] else Stream(e, k - 1) + T(e, k)
  }

  lemma {:induction false} StreamLength(e: Expander, k: nat)
    requires Lawful(e) && k <= 255
    ensures |Stream(e, k)| == k * e.size
  {
    if k > 0 {
      StreamLength(e, k - 1);
      Distribute(k, e.size);
    }
  }

  lemma Distribute(k: int, size: int)
    ensures (k - 1) * size + size == k * size
  {
  }

  lemma {:induction false} StreamPrefix(e: Expander, j: nat, k: nat)
    requires j <= k <= 255
    ensures Stream(e, j) <= Stream(e, k)
    decreases k - j
  {
    if j < k {
      StreamPrefix(e, j, k - 1);
    }
  }

  /** Blocks of output: each is the MAC of the block before it, if there is one, the info and its number from 1 on. */
  predicate IsExpansion(e: Expander, blocks: seq<Octets>) {
    |blocks| <= 255 && forall i :: 0 <= i < |blocks| ==> IsNext(e, blocks, i)
  }

  predicate IsNext(e: Expander, blocks: seq<Octets>, i: nat)
    requires i < |blocks| <= 255
  {
    blocks[i] == if i == 0 then e.mac(e.info + [1]) else e.mac(blocks[i - 1] + e.info + [i + 1])
  }

  /** The stream is made of such blocks, and there is only one choice of them. */
  lemma {:induction false} ExpansionIsStream(e: Expander, blocks: seq<Octets>)
    requires IsExpansion(e, blocks)
    ensures Concat(blocks) == Stream(e, |blocks|)
    ensures forall i :: 0 <= i < |blocks| ==> blocks[i] == T(e, i + 1)
  {
    if blocks != [] {
      var n := |blocks| - 1;
      forall i | 0 <= i < n ensures IsNext(e, blocks[..n], i) {
        assert IsNext(e, blocks, i);
      }
      ExpansionIsStream(e, blocks[..n]);
      NextIsT(e, blocks, n);
      ConcatAppend(blocks[..n], blocks[n]);
      assert blocks == blocks[..n] + [blocks[n]];
      assert Stream(e, n + 1) == Stream(e, n) + T(e, n + 1);
    }
  }

  lemma NextIsT(e: Expander, blocks: seq<Octets>, n: nat)
    requires n < |blocks| <= 255 && IsNext(e, blocks, n) && (n > 0 ==> blocks[n - 1] == T(e, n))
    ensures blocks[n] == T(e, n + 1)
  {
    assert T(e, 0) + e.info + [1] == e.info + [1];
  }

  lemma Expansion(e: Expander) returns (blocks: seq<Octets>)
    ensures IsExpansion(e, blocks) && |blocks| == 255 && Concat(blocks) == Stream(e, 255)
  {
    blocks := seq(255, i requires 0 <= i < 255 => T(e, i + 1));
    forall i | 0 <= i < 255 ensures IsNext(e, blocks, i) {
      if i == 0 {
        assert T(e, 0) + e.info + [1] == e.info + [1];
      }
    }
    ExpansionIsStream(e, blocks);
  }

  class Reader {
    const e: Expander
    var counter: byte
    var prev: Octets
    var cache: Octets
    /** The number of blocks computed and all the bytes handed out. */
    ghost var blocks: nat
    ghost var given: Octets

    ghost predicate Valid()
      reads this
    {
      && Lawful(e) && blocks <= 255
      && counter as int == (blocks + 1) % 256
      && prev == T(e, blocks)
      && given + cache == Stream(e, blocks)
    }

    constructor (e: Expander)
      requires Lawful(e)
      ensures Valid() && this.e == e && given == []
    {
      this.e, counter, prev, cache := e, 1, [], [];
      blocks, given := 0, [];
    }

    /** What is given out is always the beginning of T(1)..T(255). */
    lemma GivenIsPrefix()
      requires Valid()
      ensures given <= Stream(e, 255)
    {
      StreamPrefix(e, blocks, 255);
      assert given <= given + cache;
    }

    /** The number of bytes that can still be had, with the blocks left counted in one byte. */
    method Remains() returns (n: nat)
      requires Valid()
      ensures |given| + n == 255 * e.size
    {
      n := |cache| + (255 - counter as int + 1) % 256 * e.size;
      StreamLength(e, blocks);
      assert (255 - counter as int + 1) % 256 == 255 - blocks;
      Spread(blocks, e.size);
    }

    /** Computes T(blocks + 1); the counter wraps after the last one. */
    method NextBlock()
      requires Valid() && cache == [] && blocks < 255
      modifies this`prev, this`counter, this`blocks, this`cache
      ensures Valid() && |cache| == e.size
    {
      prev := e.mac(prev + e.info + [counter]);
      counter := if counter == 255 then 0 else counter + 1;
      blocks := blocks + 1;
      cache := prev;
    }

    /** Takes n bytes out of the cache. */
    method Serve(n: nat) returns (p: Octets)
      requires Valid() && n <= |cache|
      modifies this`cache, this`given
      ensures Valid() && |p| == n && given == old(given) + p && |cache| == |old(cache)| - n
    {
      p := cache[..n];
      Split(given, cache, n);
      given, cache := given + p, cache[n..];
    }

    /** The next need bytes, or none at all if the stream is shorter than that. */
    method Read(need: nat) returns (p: Option<Octets>)
      requires Valid()
      modifies this
      ensures Valid()
      ensures p.Some? <==> |old(given)| + need <= 255 * e.size
      ensures p.Some? ==> |p.value| == need && given == old(given) + p.value
      ensures p == None ==> given == old(given)
    {
      var remains := Remains();
      if remains < need {
        return None;
      }
      ghost var limit := |given| + remains;
      var data := Serve(Min(need, |cache|));
      while |data| < need
        invariant Valid() && |data| <= need && given == old(given) + data
                  && |old(given)| + need <= limit == 255 * e.size
        invariant |data| < need ==> cache == []
        decreases need - |data|
      {
        NotAll(e, blocks, |given|);
        NextBlock();
        var piece := Serve(Min(need - |data|, |cache|));
        data := data + piece;
      }
      p := Some(data);
    }
  }

  lemma Split(s: Octets, t: Octets, n: nat)
    requires n <= |t|
    ensures s + t == s + t[..n] + t[n..]
  {
  }

  lemma NotAll(e: Expander, k: nat, n: nat)
    requires Lawful(e) && k <= 255 && n == |Stream(e, k)| && n < 255 * e.size
    ensures k < 255
  {
    StreamLength(e, k);
    Bounded(k, e.size, n);
  }

  lemma Spread(k: int, size: int)
    ensures k * size + (255 - k) * size == 255 * size
  {
  }

  lemma Bounded(k: nat, size: nat, n: nat)
    requires k <= 255 && n == k * size && n < 255 * size
    ensures k < 255
  {
  }

  /** Reads that follow one another; they stop at the first one that is refused. */
  method ReadParts(r: Reader, needs: seq<nat>) returns (parts: seq<Octets>)
    requires r.Valid()
    modifies r
    ensures r.Valid() && r.given == old(r.given) + Concat(parts)
    ensures |parts| <= |needs| && forall i :: 0 <= i < |parts| ==> |parts[i]| == needs[i]
    ensures |parts| < |needs| ==> |r.given| + needs[|parts|] > 255 * r.e.size
    decreases |needs|
  {
    parts := [];
    if needs != [] {
      ghost var was := r.given;
      var p := r.Read(needs[0]);
      if p.Some? {
        var others := ReadParts(r, needs[1..]);
        parts := [p.value] + others;
        assert parts[1..] == others;
        assert was + p.value + Concat(others) == was + (p.value + Concat(others));
      }
    }
  }

  /** However the reads are split, what they return is the beginning of T(1)..T(255), as much as fits. */
  method ReadAll(e: Expander, needs: seq<nat>) returns (parts: seq<Octets>)
    requires Lawful(e)
    ensures exists blocks :: IsExpansion(e, blocks) && |blocks| == 255 && Concat(parts) <= Concat(blocks)
    ensures |parts| <= |needs| && forall i :: 0 <= i < |parts| ==> |parts[i]| == needs[i]
    ensures |parts| < |needs| ==> |Concat(parts)| + needs[|parts|] > 255 * e.size
  {
    var r := new Reader(e);
    parts := ReadParts(r, needs);
    assert [] + Concat(parts) == Concat(parts);
    r.GivenIsPrefix();
    ghost var blocks := Expansion(e);
  }
}
