/**
 * OBJECT IDENTIFIER contents as cryptobyte writes and reads them: numbers in base 128, the first two
 * components in one of them.
 */
module DerOid {
  import opened Words
  import opened Bytes

  const MAX63 := 0x7fff_ffff_ffff_ffff
  /** The reader takes four bytes of a number at most. */
  const TWO28 := 0x1000_0000

  // ---------------------------------------------------------------- numbers in base 128

  /** The bytes in front of the last one, all with the top bit. */
  function High(n: nat): seq<byte> {
    if n == 0 then [] else High(n / 128) + [128 + n % 128]
  }

  function Base128(n: nat): seq<byte> {
    High(n / 128) + [n % 128]
  }

  /** n shifted right by i groups of seven bits. */
  function Shifted(n: nat, i: nat): nat
    decreases i, n
  {
    if i == 0 then n else Shifted(n / 128, i - 1)
  }

  function Groups(n: nat): nat {
    if n == 0 then 0 else 1 + Groups(n / 128)
  }

  lemma {:induction false} HighLength(n: nat)
    ensures |High(n)| == Groups(n)
  {
    if n > 0 {
      HighLength(n / 128);
    }
  }

  lemma {:induction false} HighAt(n: nat, i: nat)
    requires i < |High(n)|
    ensures High(n)[|High(n)| - 1 - i] == 128 + Shifted(n, i) % 128
    decreases i
  {
    if i > 0 {
      HighAt(n / 128, i - 1);
    }
  }

  /** addBase128Int; a negative number, which only overflow can give, writes nothing. */
  method AddBase128Int(n: int) returns (out: seq<byte>)
    ensures out == if n < 0 then [] else Base128(n)
  {
    out := [];
    var length := 0;
    if n == 0 {
      length := 1;
    } else {
      var i := n;
      while i > 0
        invariant n < 0 ==> i == n && length == 0
        invariant n > 0 ==> i >= 0 && length + Groups(i) == Groups(n)
      {
        i, length := i / 128, length + 1;
      }
    }
    if n >= 0 {
      HighLength(n / 128);
      assert length == |Base128(n)|;
    }
    ghost var count := length;
    while length > 0
      invariant 0 <= length <= count && (n < 0 ==> count == 0) && (n >= 0 ==> count == |Base128(n)|)
      invariant n >= 0 ==> out == Base128(n)[..count - length]
      invariant n < 0 ==> out == []
    {
      length := length - 1;
      var o: byte := Shifted(n, length) % 128;
      if length != 0 {
        HighAt(n / 128, length - 1);
        o := o + 128;
      }
      out := out + [o];
    }
  }

  /** readBase128Int behind i bytes that made up ret; at most four bytes, of which the last has no top bit. */
  function ReadBase(s: seq<byte>, i: nat, ret: nat): Option<(nat, seq<byte>)>
    decreases |s|
  {
    if s == [] || i == 4 then None
    else if s[0] < 128 then Some((ret * 128 + s[0], s[1..]))
    else ReadBase(s[1..], i + 1, ret * 128 + s[0] % 128)
  }

  /** readBase128Int. */
  method ReadBase128Int(s: seq<byte>) returns (r: Option<(nat, seq<byte>)>)
    ensures r == ReadBase(s, 0, 0)
  {
    var left, i := s, 0;
    var ret: nat := 0;
    while |left| > 0
      invariant ReadBase(left, i, ret) == ReadBase(s, 0, 0)
    {
      if i == 4 {
        return None;
      }
      var b: nat := left[0];
      ret := ret * 128 + b % 128;
      left := left[1..];
      if b < 128 {
        return Some((ret, left));
      }
      i := i + 1;
    }
    return None;
  }

  /** Reading through the bytes with the top bit. */
  lemma {:induction false} ReadHigh(m: nat, t: seq<byte>)
    requires t != []
    ensures ReadBase(High(m) + t, 0, 0) == if Groups(m) <= 4 then ReadBase(t, Groups(m), m) else None
  {
    HighLength(m);
    if m == 0 {
      assert [] + t == t;
    } else {
      var x: byte := 128 + m % 128;
      assert High(m) + t == High(m / 128) + ([x] + t);
      ReadHigh(m / 128, [x] + t);
      assert ([x] + t)[1..] == t;
    }
  }

  lemma {:induction false} FewGroups(n: nat)
    ensures Groups(n / 128) <= 3 <==> n < TWO28
  {
    var a, b, c, d := n / 128, n / 128 / 128, n / 128 / 128 / 128, n / 128 / 128 / 128 / 128;
    assert a > 0 ==> Groups(a) == 1 + Groups(b);
    assert b > 0 ==> Groups(b) == 1 + Groups(c);
    assert c > 0 ==> Groups(c) == 1 + Groups(d);
    assert d > 0 ==> Groups(d) >= 1;
  }

  /** A number is read back exactly if it is below 2^28. */
  lemma BaseRoundTrip(n: nat, rest: seq<byte>)
    ensures ReadBase(Base128(n) + rest, 0, 0) == if n < TWO28 then Some((n, rest)) else None
  {
    var t := [n % 128] + rest;
    assert Base128(n) + rest == High(n / 128) + t;
    ReadHigh(n / 128, t);
    FewGroups(n);
    assert t[1..] == rest;
  }

  // ---------------------------------------------------------------- object identifiers

  /** isValidOID. */
  predicate Valid(oid: seq<int>) {
    && |oid| >= 2 && oid[0] <= 2 && (oid[0] <= 1 ==> oid[1] < 40)
    && forall i :: 0 <= i < |oid| ==> oid[i] >= 0
  }

  /** The components are ints of 64 bits. */
  predicate InRange(oid: seq<int>) {
    forall i :: 0 <= i < |oid| ==> oid[i] <= MAX63
  }

  /** The first two components in one number of 64 bits. */
  function First(oid: seq<int>): int
    requires |oid| >= 2
  {
    var n := 40 * oid[0] + oid[1];
    if n > MAX63 then n - 0x1_0000_0000_0000_0000 else n
  }

  /** It is the number of 64 bits with a sign that is congruent to 40 times the first component plus the second. */
  lemma FirstIsSigned(oid: seq<int>)
    requires Valid(oid) && InRange(oid)
    ensures -MAX63 - 1 <= First(oid) <= MAX63
    ensures (40 * oid[0] + oid[1] - First(oid)) % 0x1_0000_0000_0000_0000 == 0
  {
    assert 0 <= 40 * oid[0] + oid[1] <= 80 + MAX63;
  }

  function WriteNumbers(ns: seq<int>): seq<byte>
    requires forall i :: 0 <= i < |ns| ==> ns[i] >= 0
  {
    if ns == [] then [] else Base128(ns[0]) + WriteNumbers(ns[1..])
  }

  function Write(oid: seq<int>): Option<seq<byte>> {
    if !Valid(oid) then None
    else Some((if First(oid) < 0 then [] else Base128(First(oid))) + WriteNumbers(oid[2..]))
  }

  function ReadNumbers(s: seq<byte>): Option<seq<int>>
    decreases |s|
  {
    if s == [] then Some([])
    else
      match ReadBase(s, 0, 0)
      case None => None
      case Some(first) =>
        ReadShortens(s, 0, 0);
        match ReadNumbers(first.1)
        case None => None
        case Some(others) => Some([first.0] + others)
  }

  lemma {:induction false} ReadShortens(s: seq<byte>, i: nat, ret: nat)
    ensures ReadBase(s, i, ret).Some? ==> |ReadBase(s, i, ret).value.1| < |s|
    decreases |s|
  {
    if s != [] && i != 4 && s[0] >= 128 {
      ReadShortens(s[1..], i + 1, ret * 128 + s[0] % 128);
    }
  }

  /** The first number stands for two components. */
  function Split(v: int): seq<int> {
    if v < 80 then [v / 40, v % 40] else [2, v - 80]
  }

  function Read(s: seq<byte>): Option<seq<int>> {
    if s == [] then None
    else
      match ReadNumbers(s)
      case None => None
      case Some(ns) => if ns == [] then None else Some(Split(ns[0]) + ns[1..])
  }

  predicate Small(ns: seq<int>) {
    forall i :: 0 <= i < |ns| ==> ns[i] < TWO28
  }

  lemma {:induction false} NumbersRoundTrip(ns: seq<int>)
    requires forall i :: 0 <= i < |ns| ==> ns[i] >= 0
    ensures ReadNumbers(WriteNumbers(ns)) == if Small(ns) then Some(ns) else None
  {
    if ns != [] {
      BaseRoundTrip(ns[0], WriteNumbers(ns[1..]));
      NumbersRoundTrip(ns[1..]);
      assert Small(ns) <==> ns[0] < TWO28 && Small(ns[1..]) by {
        if ns[0] < TWO28 && Small(ns[1..]) {
          forall i | 0 <= i < |ns| ensures ns[i] < TWO28 {
            assert i > 0 ==> ns[1..][i - 1] == ns[i];
          }
        }
      }
      assert ns == [ns[0]] + ns[1..];
    }
  }

  /** An identifier survives exactly if each of its numbers, with the first two components in one, is below 2^28. */
  lemma RoundTripIff(oid: seq<int>)
    requires Valid(oid) && InRange(oid)
    ensures Read(Write(oid).value) == Some(oid) <==> 40 * oid[0] + oid[1] < TWO28 && Small(oid[2..])
  {
    var n, others := 40 * oid[0] + oid[1], oid[2..];
    if First(oid) < 0 {
      NumbersRoundTrip(others);
      assert Write(oid).value == WriteNumbers(others);
    } else {
      ReadFirst(n, others);
      assert oid == Split(n) + others;
    }
  }

  lemma ReadFirst(n: nat, others: seq<int>)
    requires forall i :: 0 <= i < |others| ==> others[i] >= 0
    ensures Read(Base128(n) + WriteNumbers(others)) ==
            if n < TWO28 && Small(others) then Some(Split(n) + others) else None
  {
    var rest := WriteNumbers(others);
    BaseRoundTrip(n, rest);
    NumbersRoundTrip(others);
    if n < TWO28 {
      ReadNext(Base128(n) + rest, n, rest);
    }
    assert ([n] + others)[1..] == others;
  }

  lemma ReadNext(s: seq<byte>, n: nat, rest: seq<byte>)
    requires s != [] && ReadBase(s, 0, 0) == Some((n, rest))
    ensures ReadNumbers(s) == if ReadNumbers(rest).None? then None else Some([n] + ReadNumbers(rest).value)
  {
    ReadShortens(s, 0, 0);
  }

  /** AddASN1ObjectIdentifier: an identifier that is not valid is an error of the builder. */
  method AddObjectIdentifier(oid: seq<int>) returns (r: Option<seq<byte>>)
    requires InRange(oid)
    ensures r == Write(oid)
  {
    if !Valid(oid) {
      return None;
    }
    var out := AddBase128Int(First(oid));
    ghost var front, rest := out, oid[2..];
    var i := 2;
    while i < |oid|
      invariant 2 <= i <= |oid| && out + WriteNumbers(oid[i..]) == front + WriteNumbers(rest)
    {
      assert oid[i..][1..] == oid[i + 1..];
      var bytes := AddBase128Int(oid[i]);
      Regroup(out, bytes, WriteNumbers(oid[i + 1..]));
      out := out + bytes;
      i := i + 1;
    }
    assert out + [] == out;
    r := Some(out);
  }

  /** ReadASN1ObjectIdentifier behind the header; one place more than there are bytes is always enough. */
  method ReadObjectIdentifier(s: seq<byte>) returns (r: Option<seq<int>>)
    ensures r == Read(s)
  {
    if s == [] {
      return None;
    }
    var components := new int[|s| + 1];
    var first := ReadBase128Int(s);
    if first == None {
      return None;
    }
    ReadShortens(s, 0, 0);
    var (v, left) := first.value;
    ReadNext(s, v, left);
    components[0], components[1] := if v < 80 then v / 40 else 2, if v < 80 then v % 40 else v - 80;
    assert components[..2] == Split(v);
    var i := 2;
    while |left| > 0
      invariant 2 <= i && i + |left| <= |s| + 1 == components.Length
      invariant Read(s) == Joined(components[..i], ReadNumbers(left))
    {
      var next := ReadBase128Int(left);
      if next == None {
        return None;
      }
      ReadShortens(left, 0, 0);
      ReadNext(left, next.value.0, next.value.1);
      JoinedNext(components[..i], next.value.0, ReadNumbers(next.value.1));
      components[i] := next.value.0;
      left := next.value.1;
      i := i + 1;
      assert components[..i] == components[..i - 1] + [components[i - 1]];
    }
    assert components[..i] + [] == components[..i];
    r := Some(components[..i]);
  }

  function Joined(front: seq<int>, rest: Option<seq<int>>): Option<seq<int>> {
    if rest == None then None else Some(front + rest.value)
  }

  lemma JoinedNext(front: seq<int>, n: int, rest: Option<seq<int>>)
    ensures Joined(front, if rest == None then None else Some([n] + rest.value)) == Joined(front + [n], rest)
  {
    if rest.Some? {
      assert front + ([n] + rest.value) == front + [n] + rest.value;
    }
  }

  // ---------------------------------------------------------------- what else is accepted

  /** The value of bytes with the top bit. */
  function Value(h: seq<byte>): nat {
    if h == [] then 0 else Value(h[..|h| - 1]) * 128 + h[|h| - 1] % 128
  }

  predicate AllHigh(h: seq<byte>) {
    forall i :: 0 <= i < |h| ==> h[i] >= 128
  }

  lemma HighStep(v: nat, b: nat)
    requires b < 128
    ensures |High(v * 128 + b)| <= |High(v)| + 1
    ensures v * 128 + b > 0 ==> High(v * 128 + b) == High(v) + [128 + b]
  {
    LastGroup(v, b);
  }

  /** The bytes t are those in front of the last group of v, or too many. */
  predicate Heads(t: seq<byte>, v: nat) {
    if t == [] then v == 0 && High(v) == t
    else if t[0] != 128 then v > 0 && High(v) == t
    else |High(v)| < |t|
  }

  /** Without a leading zero group the bytes are the ones that are written; with one they are too many. */
  lemma {:induction false} HighOfValue(h: seq<byte>)
    requires AllHigh(h)
    ensures Heads(h, Value(h))
  {
    if h != [] {
      var n := |h| - 1;
      HighOfValue(h[..n]);
      assert h == h[..n] + [h[n]];
      HighOfNext(h[..n], h[n], Value(h[..n]));
    }
  }

  lemma HighOfNext(t: seq<byte>, x: byte, v: nat)
    requires x >= 128 && Heads(t, v)
    ensures Heads(t + [x], v * 128 + x as int % 128)
  {
    HighStep(v, x % 128);
    if t == [] {
      if x == 128 {
        assert High(0) == [];
      } else {
        assert High(0) + [x] == [x];
      }
    } else {
      assert (t + [x])[0] == t[0];
    }
  }

  /** What readBase128Int has read: bytes with the top bit and one without. */
  lemma {:induction false} ReadParts(s: seq<byte>, done: seq<byte>) returns (h: seq<byte>, last: byte)
    requires AllHigh(done) && ReadBase(s, |done|, Value(done)).Some?
    ensures var (n, rest) := ReadBase(s, |done|, Value(done)).value;
            && AllHigh(h) && last < 128 && done + s == h + [last] + rest
            && n == Value(h) * 128 + last && (done != [] ==> h != [] && h[0] == done[0])
    decreases |s|
  {
    if s[0] < 128 {
      h, last := done, s[0];
    } else {
      var more := done + [s[0]];
      assert more[..|done|] == done;
      h, last := ReadParts(s[1..], more);
      assert more + s[1..] == done + s;
    }
  }

  /** The bytes of one number are what is written for it, or too many. */
  lemma FrontIsWritten(s: seq<byte>, n: nat, rest: seq<byte>)
    requires ReadBase(s, 0, 0) == Some((n, rest))
    ensures s != [] && |Base128(n)| + |rest| <= |s|
    ensures s[0] == 128 ==> |Base128(n)| + |rest| < |s|
    ensures s[0] != 128 ==> s == Base128(n) + rest
  {
    var h, last := ReadFront(s, n, rest);
    HighOfValue(h);
    WrittenOrLonger(h, last, n, Value(h));
    InFront(s, h + [last], rest, Base128(n));
  }

  lemma InFront(s: seq<byte>, front: seq<byte>, rest: seq<byte>, base: seq<byte>)
    requires front != [] && s == front + rest && |base| <= |front|
    requires if front[0] == 128 then |base| < |front| else base == front
    ensures |base| + |rest| <= |s| && (s[0] == 128 ==> |base| + |rest| < |s|) && (s[0] != 128 ==> s == base + rest)
  {
  }

  lemma ReadFront(s: seq<byte>, n: nat, rest: seq<byte>) returns (h: seq<byte>, last: byte)
    requires ReadBase(s, 0, 0) == Some((n, rest))
    ensures AllHigh(h) && last < 128 && s == h + [last] + rest && n == Value(h) * 128 + last
  {
    h, last := ReadParts(s, []);
    assert [] + s == s;
  }

  lemma WrittenOrLonger(h: seq<byte>, last: byte, n: nat, v: nat)
    requires last < 128 && n == v * 128 + last && if h == [] || h[0] != 128 then High(v) == h else |High(v)| < |h|
    ensures |Base128(n)| <= |h| + 1
    ensures if (h + [last])[0] == 128 then |Base128(n)| < |h| + 1 else Base128(n) == h + [last]
  {
    BaseOf(v, last);
    Behind(h, last, High(v));
  }

  lemma BaseOf(v: nat, b: byte)
    requires b < 128
    ensures Base128(v * 128 + b) == High(v) + [b]
  {
    LastGroup(v, b);
  }

  lemma Behind(h: seq<byte>, last: byte, high: seq<byte>)
    requires last < 128 && if h == [] || h[0] != 128 then high == h else |high| < |h|
    ensures |high + [last]| <= |h| + 1
    ensures if (h + [last])[0] == 128 then |high + [last]| < |h| + 1 else high + [last] == h + [last]
  {
  }

  lemma LastGroup(v: nat, b: nat)
    requires b < 128
    ensures (v * 128 + b) / 128 == v && (v * 128 + b) % 128 == b
  {
  }

  /** No number begins with a zero group. */
  predicate NoPadding(s: seq<byte>) {
    forall i :: 0 <= i < |s| && s[i] == 128 ==> i > 0 && s[i - 1] >= 128
  }

  /** The same, number by number. */
  lemma NoPaddingStep(s: seq<byte>)
    requires ReadBase(s, 0, 0).Some?
    ensures NoPadding(s) <==> s[0] != 128 && NoPadding(ReadBase(s, 0, 0).value.1)
  {
    var (n, rest) := ReadBase(s, 0, 0).value;
    var h, last := ReadFront(s, n, rest);
    NoPaddingBehind(h, last, rest);
  }

  lemma NoPaddingBehind(h: seq<byte>, last: byte, rest: seq<byte>)
    requires AllHigh(h) && last < 128
    ensures var s := h + [last] + rest; NoPadding(s) <==> s[0] != 128 && NoPadding(rest)
  {
    var s, k := h + [last] + rest, |h| + 1;
    if NoPadding(s) {
      assert s[0] != 128;
      forall i | 0 <= i < |rest| && rest[i] == 128 ensures i > 0 && rest[i - 1] >= 128 {
        assert s[k + i] == 128 && s[k - 1] == last;
        assert i > 0 ==> rest[i - 1] == s[k + i - 1];
      }
    }
    if s[0] != 128 && NoPadding(rest) {
      forall i | 0 <= i < |s| && s[i] == 128 ensures i > 0 && s[i - 1] >= 128 {
        if i >= k {
          assert rest[i - k] == 128;
        } else {
          assert i == 0 || h[i - 1] >= 128;
        }
      }
    }
  }

  lemma {:induction false} NumbersAreWritten(s: seq<byte>)
    requires ReadNumbers(s).Some?
    ensures var ns := ReadNumbers(s).value;
            && (forall i :: 0 <= i < |ns| ==> 0 <= ns[i] < TWO28) && |WriteNumbers(ns)| <= |s|
            && (NoPadding(s) ==> WriteNumbers(ns) == s) && (!NoPadding(s) ==> |WriteNumbers(ns)| < |s|)
    decreases |s|
  {
    if s != [] {
      var (n, rest) := ReadBase(s, 0, 0).value;
      ReadShortens(s, 0, 0);
      NumbersAreWritten(rest);
      FrontIsWritten(s, n, rest);
      NoPaddingStep(s);
      ReadIsSmall(s);
      var others := ReadNumbers(rest).value;
      assert ([n] + others)[1..] == others;
    }
  }

  lemma ReadIsSmall(s: seq<byte>)
    requires ReadBase(s, 0, 0).Some?
    ensures ReadBase(s, 0, 0).value.0 < TWO28
  {
    ReadIsBelow(s, 0, 0);
  }

  function Pow128(k: nat): nat {
    if k == 0 then 1 else 128 * Pow128(k - 1)
  }

  lemma {:induction false} ReadIsBelow(s: seq<byte>, i: nat, ret: nat)
    requires i <= 4 && ret < Pow128(i)
    ensures ReadBase(s, i, ret).Some? ==> ReadBase(s, i, ret).value.0 < TWO28
    decreases |s|
  {
    assert Pow128(1) == 128 && Pow128(2) == 0x4000 && Pow128(3) == 0x20_0000 && Pow128(4) == TWO28;
    if s != [] && i != 4 {
      assert ret * 128 + s[0] as int % 128 < Pow128(i + 1) <= TWO28;
      if s[0] >= 128 {
        ReadIsBelow(s[1..], i + 1, ret * 128 + s[0] as int % 128);
      }
    }
  }

  /** What is read is valid, and writing it again gives the same bytes exactly if no number was padded. */
  lemma RewriteIff(s: seq<byte>)
    requires Read(s).Some?
    ensures Valid(Read(s).value)
    ensures Write(Read(s).value) == Some(s) <==> NoPadding(s)
  {
    var ns := ReadNumbers(s).value;
    var oid := Read(s).value;
    NumbersAreWritten(s);
    assert oid[2..] == ns[1..] && 40 * oid[0] + oid[1] == ns[0];
    forall i | 0 <= i < |oid| ensures oid[i] >= 0 {
      assert i >= 2 ==> oid[i] == ns[i - 1];
    }
    assert Write(oid) == Some(WriteNumbers(ns));
  }
}
