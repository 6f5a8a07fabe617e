/**
 * The SSH message codec of messages.go. A struct is a list of values, and the reflection over its
 * fields is a list of kinds; the type tags are the numbers that a message may start with.
 */
module Messages {
  import opened Words
  import opened Bytes
  import NameList
  import Mpint
  import opened Division

  datatype Kind =
    FlagKind | FixedKind(size: nat) | SmallKind | WordKind | LongKind | TextKind | TailKind | NamesKind | IntegerKind

  datatype Value =
    | Flag(flag: bool)
    | Fixed(bytes: seq<byte>)
    | Small(small: byte)
    | Word(word: uint32)
    | Long(long: uint64)
    | Text(text: seq<byte>)
    | Tail(tail: seq<byte>)
    | Names(names: seq<NameList.Name>)
    | Integer(number: int)

  function KindOf(v: Value): Kind {
    match v
    case Flag(_) => FlagKind
    case Fixed(bytes) => FixedKind(|bytes|)
    case Small(_) => SmallKind
    case Word(_) => WordKind
    case Long(_) => LongKind
    case Text(_) => TextKind
    case Tail(_) => TailKind
    case Names(_) => NamesKind
    case Integer(_) => IntegerKind
  }

  // ---------------------------------------------------------------- one field

  function PutString(s: seq<byte>): seq<byte> {
    BigEndian(|s|, 4) + s
  }

  function Put(v: Value): seq<byte> {
    match v
    case Flag(flag) => [if flag then 1 else 0]
    case Fixed(bytes) => bytes
    case Small(small) => [small]
    case Word(word) => BigEndian(word, 4)
    case Long(long) => BigEndian(long, 8)
    case Text(text) => PutString(text)
    case Tail(tail) => tail
    case Names(names) => PutString(NameList.Join(names))
    case Integer(number) => PutString(Mpint.IntBytes(number))
  }

  /** A string and the bytes behind it; the space left is compared in 32 bits. */
  function TakeString(data: seq<byte>): Option<(seq<byte>, seq<byte>)> {
    if |data| < 4 then None
    else
      var length := FromBigEndian(data[..4]);
      if U32(|data| - 4) < length then None else Some((data[4..4 + length], data[4 + length..]))
  }

  function Take(kind: Kind, data: seq<byte>): Option<(Value, seq<byte>)> {
    match kind
    case FlagKind => if |data| < 1 then None else Some((Flag(data[0] != 0), data[1..]))
    case FixedKind(size) => if |data| < size then None else Some((Fixed(data[..size]), data[size..]))
    case SmallKind => if |data| < 1 then None else Some((Small(data[0]), data[1..]))
    case WordKind => if |data| < 4 then None else Some((Word(U32(FromBigEndian(data[..4]))), data[4..]))
    case LongKind => if |data| < 8 then None else Some((Long(U64(FromBigEndian(data[..8]))), data[8..]))
    case TailKind => Some((Tail(data), []))
    case TextKind => TakeContents(data, s => Text(s))
    case NamesKind => TakeContents(data, s => Names(NameList.Parse(s)))
    case IntegerKind => TakeContents(data, s => Integer(Mpint.ParseInt(s)))
  }

  /** A field that is wrapped in a string. */
  function TakeContents(data: seq<byte>, make: seq<byte> -> Value): Option<(Value, seq<byte>)> {
    match TakeString(data)
    case None => None
    case Some(r) => Some((make(r.0), r.1))
  }

  /** What a value looks like after a round trip: only name lists can change. */
  function Reread(v: Value): Value {
    if v.Names? then Names(NameList.Parse(NameList.Join(v.names))) else v
  }

  lemma TakeStringPut(s: seq<byte>, rest: seq<byte>)
    requires |s| + |rest| < 0x1_0000_0000
    ensures TakeString(PutString(s) + rest) == Some((s, rest))
  {
    var data := PutString(s) + rest;
    Powers();
    BigEndianInverse(|s|, 4);
    UniqueRemainder(|s|, 0x1_0000_0000, 0, |s|);
    assert data[..4] == BigEndian(|s|, 4) && data[4..4 + |s|] == s && data[4 + |s|..] == rest;
  }

  lemma TakeNumber(n: nat, k: nat, rest: seq<byte>)
    requires n < Pow256(k)
    ensures var data := BigEndian(n, k) + rest; FromBigEndian(data[..k]) == n && data[k..] == rest
  {
    var data := BigEndian(n, k) + rest;
    assert data[..k] == BigEndian(n, k) && data[k..] == rest;
    BigEndianInverse(n, k);
    UniqueRemainder(n, Pow256(k), 0, n);
  }

  lemma TakeContentsPut(s: seq<byte>, rest: seq<byte>, make: seq<byte> -> Value)
    requires |s| + |rest| < 0x1_0000_0000
    ensures TakeContents(PutString(s) + rest, make) == Some((make(s), rest))
  {
    TakeStringPut(s, rest);
  }

  lemma TakePutString(v: Value, rest: seq<byte>)
    requires v.Text? || v.Names? || v.Integer?
    requires |Put(v)| + |rest| < 0x1_0000_0000
    ensures Take(KindOf(v), Put(v) + rest) == Some((Reread(v), rest))
  {
    if v.Text? {
      TakeContentsPut(v.text, rest, s => Text(s));
    } else if v.Names? {
      TakeContentsPut(NameList.Join(v.names), rest, s => Names(NameList.Parse(s)));
    } else {
      TakeContentsPut(Mpint.IntBytes(v.number), rest, s => Integer(Mpint.ParseInt(s)));
      Mpint.ParseMarshal(v.number);
    }
  }

  lemma TakePutNumber(v: Value, rest: seq<byte>)
    requires v.Word? || v.Long?
    ensures Take(KindOf(v), Put(v) + rest) == Some((v, rest))
  {
    if v.Word? {
      TakePutWord(v, rest);
    } else {
      Powers();
      TakeNumber(v.long, 8, rest);
    }
  }

  lemma TakePutWord(v: Value, rest: seq<byte>)
    requires v.Word?
    ensures Take(KindOf(v), Put(v) + rest) == Some((v, rest))
  {
    Powers();
    TakeNumber(v.word, 4, rest);
  }

  lemma TakePutBytes(v: Value, rest: seq<byte>)
    requires v.Flag? || v.Fixed? || v.Small? || (v.Tail? && rest == [])
    ensures Take(KindOf(v), Put(v) + rest) == Some((v, rest))
  {
    var data := Put(v) + rest;
    if v.Fixed? {
      assert data[..|v.bytes|] == v.bytes && data[|v.bytes|..] == rest;
    } else if v.Tail? {
      assert data == v.tail;
    } else {
      assert data[1..] == rest;
    }
  }

  /** Each field is read back from the front, whatever follows. */
  lemma TakePut(v: Value, rest: seq<byte>)
    requires |Put(v)| + |rest| < 0x1_0000_0000 && (v.Tail? ==> rest == [])
    ensures Take(KindOf(v), Put(v) + rest) == Some((Reread(v), rest))
  {
    if v.Text? || v.Names? || v.Integer? {
      TakePutString(v, rest);
    } else if v.Word? || v.Long? {
      TakePutNumber(v, rest);
    } else {
      TakePutBytes(v, rest);
    }
  }

  // ---------------------------------------------------------------- whole messages

  function PutAll(vs: seq<Value>): seq<byte> {
    if vs == [] then [] else Put(vs[0]) + PutAll(vs[1..])
  }

  function TakeAll(kinds: seq<Kind>, data: seq<byte>): Option<(seq<Value>, seq<byte>)>
    decreases |kinds|
  {
    if kinds == [] then Some(([], data))
    else
      match Take(kinds[0], data)
      case None => None
      case Some(first) =>
        match TakeAll(kinds[1..], first.1)
        case None => None
        case Some(others) => Some(([first.0] + others.0, others.1))
  }

  function Marshal(tags: seq<byte>, vs: seq<Value>): seq<byte> {
    (if tags == [] then [] else [tags[0]]) + PutAll(vs)
  }

  /** Nothing may be left over, and a message without a single byte is never accepted. */
  function Unmarshal(tags: seq<byte>, kinds: seq<Kind>, data: seq<byte>): Option<seq<Value>> {
    if data == [] then None
    else if tags != [] && (data[0] == 0 || data[0] !in tags) then None
    else
      match TakeAll(kinds, if tags == [] then data else data[1..])
      case None => None
      case Some(r) => if r.1 == [] then Some(r.0) else None
  }

  function Kinds(vs: seq<Value>): (ks: seq<Kind>)
    ensures |ks| == |vs|
  {
    seq(|vs|, i requires 0 <= i < |vs| => KindOf(vs[i]))
  }

  /** A field that takes the rest of the message can only be the last one. */
  predicate TailLast(vs: seq<Value>) {
    forall i :: 0 <= i < |vs| - 1 ==> !vs[i].Tail?
  }

  function RereadAll(vs: seq<Value>): (rs: seq<Value>)
    ensures |rs| == |vs|
  {
    seq(|vs|, i requires 0 <= i < |vs| => Reread(vs[i]))
  }

  lemma {:induction false} TakeAllPutAll(vs: seq<Value>)
    requires TailLast(vs) && |PutAll(vs)| < 0x1_0000_0000
    ensures TakeAll(Kinds(vs), PutAll(vs)) == Some((RereadAll(vs), []))
  {
    if vs != [] {
      TakePut(vs[0], PutAll(vs[1..]));
      TakeAllPutAll(vs[1..]);
      assert Kinds(vs)[1..] == Kinds(vs[1..]);
      assert RereadAll(vs) == [Reread(vs[0])] + RereadAll(vs[1..]);
    }
  }

  /** A name list that survives: no commas, and not the list of one empty name. */
  predicate Listable(v: Value) {
    v.Names? ==> NameList.CommaFree(v.names) && v.names != [[]]
  }

  /** Unmarshal undoes Marshal exactly for non-empty messages whose name lists survive. */
  lemma RoundTripIff(tags: seq<byte>, vs: seq<Value>)
    requires TailLast(vs) && |PutAll(vs)| < 0x1_0000_0000 && (tags != [] ==> tags[0] != 0)
    ensures Unmarshal(tags, Kinds(vs), Marshal(tags, vs)) == Some(vs) <==>
            Marshal(tags, vs) != [] && forall i :: 0 <= i < |vs| ==> Listable(vs[i])
  {
    TakeAllPutAll(vs);
    forall i | 0 <= i < |vs| ensures RereadAll(vs)[i] == vs[i] <==> Listable(vs[i]) {
      if vs[i].Names? {
        NameList.ParseJoinIff(vs[i].names);
      }
    }
    var data := Marshal(tags, vs);
    assert (if tags == [] then data else data[1..]) == PutAll(vs);
    assert RereadAll(vs) == vs <==> forall i :: 0 <= i < |vs| ==> Listable(vs[i]);
  }

  // ---------------------------------------------------------------- what else is accepted

  lemma StringIsPut(data: seq<byte>)
    requires TakeString(data).Some?
    ensures var (s, rest) := TakeString(data).value; data == PutString(s) + rest
  {
    var length := FromBigEndian(data[..4]);
    FromBigEndianInverse(data[..4]);
    Pieces(data, length);
  }

  lemma Pieces(data: seq<byte>, n: nat)
    requires 4 + n <= |data|
    ensures data == data[..4] + data[4..4 + n] + data[4 + n..]
  {
  }

  /** A field as Marshal writes it: true is one, and a number has no redundant sign byte. */
  predicate Canonical(kind: Kind, data: seq<byte>) {
    match kind
    case FlagKind => data != [] && data[0] <= 1
    case IntegerKind => TakeString(data).Some? && Mpint.Minimal(TakeString(data).value.0)
    case _ => true
  }

  predicate AllCanonical(kinds: seq<Kind>, data: seq<byte>)
    decreases |kinds|
  {
    kinds == [] ||
    (Canonical(kinds[0], data) && Take(kinds[0], data).Some? && AllCanonical(kinds[1..], Take(kinds[0], data).value.1))
  }

  /** A field that was read is written again as it was, or shorter, or with another first byte. */
  predicate Rewrites(canonical: bool, data: seq<byte>, put: seq<byte>, rest: seq<byte>) {
    && |put| + |rest| <= |data|
    && (canonical ==> data == put + rest)
    && (!canonical ==> |put| + |rest| < |data| || (data != [] && put != [] && data[0] != put[0]))
  }

  lemma FieldRewrites(kind: Kind, data: seq<byte>)
    requires Take(kind, data).Some?
    ensures var (v, rest) := Take(kind, data).value; Rewrites(Canonical(kind, data), data, Put(v), rest)
  {
    if kind.TextKind? || kind.NamesKind? || kind.IntegerKind? {
      StringRewrites(kind, data);
    } else if kind.WordKind? {
      NumberRewrites(data, 4, 0x1_0000_0000);
    } else if kind.LongKind? {
      NumberRewrites(data, 8, 0x1_0000_0000_0000_0000);
    } else if kind.FixedKind? {
      assert data == data[..kind.size] + data[kind.size..];
    } else if kind.TailKind? {
      assert data == data + [];
    } else {
      assert data == [data[0]] + data[1..];
    }
  }

  lemma NumberRewrites(data: seq<byte>, k: nat, limit: nat)
    requires k <= |data| && (k == 4 || k == 8) && limit == Pow256(k)
    ensures data == BigEndian(FromBigEndian(data[..k]) % limit, k) + data[k..]
  {
    FromBigEndianInverse(data[..k]);
    UniqueRemainder(FromBigEndian(data[..k]), limit, 0, FromBigEndian(data[..k]));
    assert data == data[..k] + data[k..];
  }

  lemma StringRewrites(kind: Kind, data: seq<byte>)
    requires (kind.TextKind? || kind.NamesKind? || kind.IntegerKind?) && Take(kind, data).Some?
    ensures var (v, rest) := Take(kind, data).value; Rewrites(Canonical(kind, data), data, Put(v), rest)
  {
    var (s, rest) := TakeString(data).value;
    StringIsPut(data);
    TakenString(kind, data, s, rest);
    if kind.NamesKind? {
      NamesRewrite(s);
    } else if kind.IntegerKind? {
      IntegerRewrites(data, s, rest);
    }
  }

  lemma TakenString(kind: Kind, data: seq<byte>, s: seq<byte>, rest: seq<byte>)
    requires (kind.TextKind? || kind.NamesKind? || kind.IntegerKind?) && TakeString(data) == Some((s, rest))
    ensures Take(kind, data) ==
            Some((if kind.TextKind? then Text(s)
                  else if kind.NamesKind? then Names(NameList.Parse(s)) else Integer(Mpint.ParseInt(s)), rest))
  {
  }

  lemma NamesRewrite(s: seq<byte>)
    ensures NameList.Join(NameList.Parse(s)) == s
  {
    NameList.JoinSplit(s);
  }

  lemma IntegerRewrites(data: seq<byte>, s: seq<byte>, rest: seq<byte>)
    requires data == PutString(s) + rest
    ensures Rewrites(Mpint.Minimal(s), data, PutString(Mpint.IntBytes(Mpint.ParseInt(s))), rest)
  {
    Mpint.MinimalIsShortest(s);
    if Mpint.Minimal(s) {
      Mpint.MinimalIsMarshalled(s);
    }
  }

  lemma {:induction false} AllRewrite(kinds: seq<Kind>, data: seq<byte>)
    requires TakeAll(kinds, data).Some? && TakeAll(kinds, data).value.1 == []
    ensures var put := PutAll(TakeAll(kinds, data).value.0);
            |put| <= |data| && (put == data <==> AllCanonical(kinds, data))
    decreases |kinds|
  {
    if kinds != [] {
      var (v, rest) := Take(kinds[0], data).value;
      var others := TakeAll(kinds[1..], rest).value.0;
      FieldRewrites(kinds[0], data);
      AllRewrite(kinds[1..], rest);
      assert ([v] + others)[1..] == others;
      Front(Canonical(kinds[0], data), data, Put(v), rest, PutAll(others));
    }
  }

  lemma Front(canonical: bool, data: seq<byte>, put: seq<byte>, rest: seq<byte>, others: seq<byte>)
    requires Rewrites(canonical, data, put, rest) && |others| <= |rest|
    ensures |put + others| <= |data| && (put + others == data <==> canonical && others == rest)
  {
    if put + others == data {
      assert put != [] ==> (put + others)[0] == put[0];
      assert |others| == |rest| && canonical;
      assert others == (put + others)[|put|..] && rest == (put + rest)[|put|..];
    }
  }

  /**
   * Marshalling what was read gives the same bytes exactly if the message has the first of its type numbers,
   * its booleans are 0 or 1, and its numbers have no redundant sign byte.
   */
  lemma RewriteIff(tags: seq<byte>, kinds: seq<Kind>, data: seq<byte>)
    requires Unmarshal(tags, kinds, data).Some?
    ensures Marshal(tags, Unmarshal(tags, kinds, data).value) == data <==>
            if tags == [] then AllCanonical(kinds, data) else data[0] == tags[0] && AllCanonical(kinds, data[1..])
  {
    var body := if tags == [] then data else data[1..];
    AllRewrite(kinds, body);
    var put := PutAll(Unmarshal(tags, kinds, data).value);
    if tags == [] {
      assert [] + put == put;
    } else {
      assert data == [data[0]] + body;
      Behind(tags[0], put, data[0], body);
    }
  }

  lemma Behind(t: byte, put: seq<byte>, b: byte, body: seq<byte>)
    ensures [t] + put == [b] + body <==> t == b && put == body
  {
    assert ([t] + put)[1..] == put && ([b] + body)[1..] == body && ([t] + put)[0] == t && ([b] + body)[0] == b;
  }

  // ---------------------------------------------------------------- the code

  /** The names with commas between them, appended one by one. */
  method AppendJoined(prefix: seq<byte>, names: seq<NameList.Name>) returns (out: seq<byte>)
    requires names != []
    ensures out == prefix + NameList.Join(names)
  {
    out := prefix;
    var j := 0;
    assert names[0..] == names;
    while j < |names|
      invariant 0 <= j <= |names|
      invariant j < |names| ==>
                  out + (if j == 0 then [] else [NameList.COMMA]) + NameList.Join(names[j..]) ==
                  prefix + NameList.Join(names)
      invariant j == |names| ==> out == prefix + NameList.Join(names)
    {
      assert names[j..][1..] == names[j + 1..];
      if j != 0 {
        out := out + [NameList.COMMA];
      }
      out := out + names[j];
      j := j + 1;
    }
  }

  /** A name list with its length written back once the names are there. */
  method AppendNames(prefix: seq<byte>, names: seq<NameList.Name>) returns (out: seq<byte>)
    ensures out == prefix + PutString(NameList.Join(names))
  {
    var offset := |prefix|;
    out := prefix + BigEndian(0, 4);
    if |names| > 0 {
      out := AppendJoined(out, names);
      Patched(prefix, BigEndian(0, 4), NameList.Join(names));
      out := out[..offset] + BigEndian(|out| - offset - 4, 4) + out[offset + 4..];
    }
  }

  lemma Patched(prefix: seq<byte>, zeros: seq<byte>, joined: seq<byte>)
    requires |zeros| == 4
    ensures var out := prefix + zeros + joined; out[..|prefix|] == prefix && out[|prefix| + 4..] == joined
  {
  }

  /** A number, in a buffer of its length. */
  method AppendInteger(prefix: seq<byte>, number: int) returns (out: seq<byte>)
    ensures out == prefix + PutString(Mpint.IntBytes(number))
  {
    Mpint.LengthIsExact(number);
    var buf := new byte[Mpint.IntLength(number)];
    var end := Mpint.MarshalInt(buf, 0, number);
    assert buf[..] == PutString(Mpint.IntBytes(number));
    out := prefix + buf[..];
  }

  /** One field of marshalStruct. */
  method AppendValue(prefix: seq<byte>, v: Value) returns (out: seq<byte>)
    ensures out == prefix + Put(v)
  {
    match v {
      case Names(names) => out := AppendNames(prefix, names);
      case Integer(number) => out := AppendInteger(prefix, number);
      case _ => out := prefix + Put(v);
    }
  }

  method MarshalStruct(tags: seq<byte>, vs: seq<Value>) returns (out: seq<byte>)
    ensures out == Marshal(tags, vs)
  {
    out := if |tags| > 0 then [tags[0]] else [];
    var i := 0;
    assert vs[0..] == vs;
    while i < |vs|
      invariant 0 <= i <= |vs| && out + PutAll(vs[i..]) == Marshal(tags, vs)
    {
      assert vs[i..][1..] == vs[i + 1..];
      Regroup(out, Put(vs[i]), PutAll(vs[i + 1..]));
      out := AppendValue(out, vs[i]);
      i := i + 1;
    }
  }

  /** A list of fields in front of the outcome for the fields behind it. */
  function Onto(done: seq<Value>, r: Option<(seq<Value>, seq<byte>)>): Option<(seq<Value>, seq<byte>)> {
    match r
    case None => None
    case Some(x) => Some((done + x.0, x.1))
  }

  method UnmarshalStruct(tags: seq<byte>, kinds: seq<Kind>, data: seq<byte>) returns (r: Option<seq<Value>>)
    ensures r == Unmarshal(tags, kinds, data)
  {
    if |data| == 0 {
      return None;
    }
    var left := data;
    if |tags| > 0 {
      var goodType, t := false, 0;
      while t < |tags| && !goodType
        invariant 0 <= t <= |tags|
        invariant goodType <==> exists e :: 0 <= e < t && tags[e] > 0 && tags[e] == data[0]
      {
        goodType := tags[t] > 0 && data[0] == tags[t];
        t := t + 1;
      }
      if !goodType {
        return None;
      }
      left := data[1..];
    }
    ghost var start := left;
    var values, i := [], 0;
    assert kinds[0..] == kinds;
    OntoNothing(TakeAll(kinds, left));
    while i < |kinds|
      invariant 0 <= i <= |kinds|
      invariant TakeAll(kinds, start) == Onto(values, TakeAll(kinds[i..], left))
    {
      assert kinds[i..][1..] == kinds[i + 1..];
      var field := Take(kinds[i], left);
      if field == None {
        return None;
      }
      OntoNext(values, field.value.0, TakeAll(kinds[i + 1..], field.value.1));
      values, left := values + [field.value.0], field.value.1;
      i := i + 1;
    }
    assert kinds[i..] == [] && values + [] == values;
    r := if |left| != 0 then None else Some(values);
  }

  lemma OntoNothing(r: Option<(seq<Value>, seq<byte>)>)
    ensures Onto([], r) == r
  {
    if r.Some? {
      assert [] + r.value.0 == r.value.0;
    }
  }

  lemma OntoNext(done: seq<Value>, v: Value, r: Option<(seq<Value>, seq<byte>)>)
    ensures Onto(done, Onto([v], r)) == Onto(done + [v], r)
  {
    if r.Some? {
      assert done + ([v] + r.value.0) == done + [v] + r.value.0;
    }
  }
}
