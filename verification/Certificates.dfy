/** Certificate options, as certs.go writes and reads them. */
module Certificates {
  import opened Words
  import opened Bytes
  import opened Messages

  type Options = map<Octets, Octets>

  // ---------------------------------------------------------------- lexical order

  /** Strict lexical order of byte strings, as Go compares strings. */
  predicate Less(a: Octets, b: Octets) {
    b != [] && (a == [] || a[0] < b[0] || (a[0] == b[0] && Less(a[1..], b[1..])))
  }

  lemma {:induction false} LessIsTotal(a: Octets, b: Octets)
    ensures a == b || Less(a, b) || Less(b, a)
    decreases |a|
  {
    if a != [] && b != [] && a[0] == b[0] {
      LessIsTotal(a[1..], b[1..]);
      if a[1..] == b[1..] {
        assert a == [a[0]] + a[1..] && b == [b[0]] + b[1..];
      }
    }
  }

  lemma {:induction false} LessIsTransitive(a: Octets, b: Octets, c: Octets)
    requires Less(a, b) && Less(b, c)
    ensures Less(a, c)
    decreases |a|
  {
    if a != [] && a[0] == b[0] && b[0] == c[0] {
      LessIsTransitive(a[1..], b[1..], c[1..]);
    }
  }

  lemma {:induction false} LessIsStrict(a: Octets)
    ensures !Less(a, a)
    decreases |a|
  {
    if a != [] {
      LessIsStrict(a[1..]);
    }
  }

  datatype Pair = Pair(key: Octets, value: Octets)

  /** Every name is behind the one before it. */
  predicate Ordered(ps: seq<Pair>) {
    forall i :: 0 < i < |ps| ==> Less(ps[i - 1].key, ps[i].key)
  }

  /** The options of m in lexical order of their names. */
  ghost predicate Lists(ps: seq<Pair>, m: Options) {
    Ordered(ps) && (forall p :: p in ps <==> p.key in m && m[p.key] == p.value)
  }

  lemma {:induction false} OrderedApart(ps: seq<Pair>, i: nat, j: nat)
    requires Ordered(ps) && i < j < |ps|
    ensures Less(ps[i].key, ps[j].key)
    decreases j - i
  {
    if i + 1 < j {
      OrderedApart(ps, i, j - 1);
      LessIsTransitive(ps[i].key, ps[j - 1].key, ps[j].key);
    }
  }

  lemma OrderedRest(ps: seq<Pair>)
    requires Ordered(ps) && ps != []
    ensures Ordered(ps[1..])
  {
    var rest := ps[1..];
    assert forall i :: 0 < i < |rest| ==> rest[i - 1] == ps[i] && rest[i] == ps[i + 1];
  }

  /** There is only one such list, so the encoding of a map is determined by the map. */
  lemma {:induction false} ListIsUnique(ps: seq<Pair>, qs: seq<Pair>)
    requires Ordered(ps) && Ordered(qs) && forall p :: p in ps <==> p in qs
    ensures ps == qs
  {
    if ps == [] || qs == [] {
      NoneLeft(ps, qs);
    } else {
      FirstIsLeast(ps, qs[0]);
      FirstIsLeast(qs, ps[0]);
      LessIsStrict(ps[0].key);
      if ps[0] != qs[0] {
        LessIsTransitive(ps[0].key, qs[0].key, ps[0].key);
      }
      RestHas(ps);
      RestHas(qs);
      ListIsUnique(ps[1..], qs[1..]);
      assert ps == [ps[0]] + ps[1..] && qs == [qs[0]] + qs[1..];
    }
  }

  lemma NoneLeft(ps: seq<Pair>, qs: seq<Pair>)
    requires (ps == [] || qs == []) && forall p :: p in ps <==> p in qs
    ensures ps == qs
  {
    if ps != [] {
      SomeMember(ps);
    }
    if qs != [] {
      SomeMember(qs);
    }
  }

  lemma SomeMember(ps: seq<Pair>)
    requires ps != []
    ensures exists p :: p in ps
  {
    assert ps[0] in ps;
  }

  lemma FirstIsLeast(ps: seq<Pair>, p: Pair)
    requires Ordered(ps) && p in ps
    ensures ps[0] == p || Less(ps[0].key, p.key)
  {
    var i :| 0 <= i < |ps| && ps[i] == p;
    if i > 0 {
      OrderedApart(ps, 0, i);
    }
  }

  /** Behind the first pair come exactly the others. */
  lemma RestHas(ps: seq<Pair>)
    requires Ordered(ps) && ps != []
    ensures Ordered(ps[1..]) && forall p :: p in ps[1..] <==> p in ps && p != ps[0]
  {
    OrderedRest(ps);
    forall p | p in ps[1..] ensures p != ps[0] {
      var i :| 0 <= i < |ps[1..]| && ps[1..][i] == p;
      OrderedApart(ps, 0, i + 1);
      LessIsStrict(p.key);
    }
    assert ps == [ps[0]] + ps[1..];
  }

  // ---------------------------------------------------------------- options

  /** The value of an option is wrapped in a second string, unless it is empty. */
  function Wrapped(value: Octets): Octets {
    if value == [] then [] else PutString(value)
  }

  function PutTuple(p: Pair): Octets {
    PutString(p.key) + PutString(Wrapped(p.value))
  }

  function PutTuples(ps: seq<Pair>): Octets {
    if ps == [] then [] else PutTuple(ps[0]) + PutTuples(ps[1..])
  }

  /** The options of m in order. */
  ghost predicate Written(m: Options, out: Octets) {
    exists ps :: Lists(ps, m) && out == PutTuples(ps)
  }

  /** One option: its name, its value and the bytes behind it. */
  function TakeTuple(data: Octets): Option<(Pair, Octets)> {
    match TakeString(data)
    case None => None
    case Some(key) =>
      match TakeString(key.1)
      case None => None
      case Some(value) =>
        if value.0 == [] then Some((Pair(key.0, []), value.1))
        else
          match TakeString(value.0)
          case None => None
          case Some(inner) => if inner.1 != [] then None else Some((Pair(key.0, inner.0), value.1))
  }

  lemma TakeShortens(data: Octets)
    requires TakeTuple(data).Some?
    ensures |TakeTuple(data).value.1| < |data|
  {
  }

  /** parseTuples, from the name before and the options so far. */
  function ParseFrom(data: Octets, last: Option<Octets>, sofar: Options): Option<Options>
    decreases |data|
  {
    if data == [] then Some(sofar)
    else if TakeTuple(data) == None then None
    else
      TakeShortens(data);
      var t := TakeTuple(data).value;
      if last.Some? && !Less(last.value, t.0.key) then None
          else ParseFrom(t.1, Some(t.0.key), sofar[t.0.key := t.0.value])
  }

  function Parse(data: Octets): Option<Options> {
    ParseFrom(data, None, map[])
  }

  /** The options so far with a list of them added. */
  function Extend(sofar: Options, ps: seq<Pair>): Options
    decreases |ps|
  {
    if ps == [] then sofar else Extend(sofar[ps[0].key := ps[0].value], ps[1..])
  }

  lemma {:induction false} ExtendKeeps(sofar: Options, ps: seq<Pair>, k: Octets)
    requires k in sofar && forall i :: 0 <= i < |ps| ==> ps[i].key != k
    ensures k in Extend(sofar, ps) && Extend(sofar, ps)[k] == sofar[k]
    decreases |ps|
  {
    if ps != [] {
      ExtendKeeps(sofar[ps[0].key := ps[0].value], ps[1..], k);
    }
  }

  lemma {:induction false} ExtendHas(sofar: Options, ps: seq<Pair>, i: nat)
    requires Ordered(ps) && i < |ps|
    ensures ps[i].key in Extend(sofar, ps) && Extend(sofar, ps)[ps[i].key] == ps[i].value
    decreases |ps|
  {
    OrderedRest(ps);
    var next := sofar[ps[0].key := ps[0].value];
    if i > 0 {
      ExtendHas(next, ps[1..], i - 1);
    } else {
      forall j | 0 <= j < |ps[1..]| ensures ps[1..][j].key != ps[0].key {
        OrderedApart(ps, 0, j + 1);
        LessIsStrict(ps[0].key);
      }
      ExtendKeeps(next, ps[1..], ps[0].key);
    }
  }

  lemma {:induction false} ExtendOnly(sofar: Options, ps: seq<Pair>, k: Octets)
    requires k in Extend(sofar, ps) && k !in sofar
    ensures exists i :: 0 <= i < |ps| && ps[i].key == k
    decreases |ps|
  {
    if ps != [] && ps[0].key != k {
      ExtendOnly(sofar[ps[0].key := ps[0].value], ps[1..], k);
      var i :| 0 <= i < |ps[1..]| && ps[1..][i].key == k;
      assert ps[i + 1].key == k;
    }
  }

  /** A list in order gives the map that it lists, and no other. */
  lemma ExtendLists(ps: seq<Pair>)
    requires Ordered(ps)
    ensures Lists(ps, Extend(map[], ps))
  {
    var r := Extend(map[], ps);
    forall p | p in ps ensures p.key in r && r[p.key] == p.value {
      var i :| 0 <= i < |ps| && ps[i] == p;
      ExtendHas(map[], ps, i);
    }
    forall p: Pair | p.key in r && r[p.key] == p.value ensures p in ps {
      ExtendOnly(map[], ps, p.key);
      var i :| 0 <= i < |ps| && ps[i].key == p.key;
      ExtendHas(map[], ps, i);
      assert ps[i] == p;
    }
  }

  lemma ListedMap(ps: seq<Pair>, m: Options, r: Options)
    requires Lists(ps, m) && Lists(ps, r)
    ensures m == r
  {
    forall k | k in m ensures k in r && r[k] == m[k] {
      assert Pair(k, m[k]) in ps;
    }
    forall k | k in r ensures k in m {
      assert Pair(k, r[k]) in ps;
    }
  }

  // ---------------------------------------------------------------- which encodings are accepted

  /** An option as it was written: an empty value may be wrapped like any other. */
  datatype Form = Form(pair: Pair, doubled: bool)

  predicate FormOk(f: Form) {
    f.doubled ==> f.pair.value == []
  }

  function Inner(f: Form): Octets {
    if f.doubled then PutString([]) else Wrapped(f.pair.value)
  }

  function PutForm(f: Form): Octets {
    PutString(f.pair.key) + PutString(Inner(f))
  }

  function PutForms(fs: seq<Form>): Octets {
    if fs == [] then [] else PutForm(fs[0]) + PutForms(fs[1..])
  }

  function Pairs(fs: seq<Form>): (ps: seq<Pair>)
    ensures |ps| == |fs| && forall i :: 0 <= i < |fs| ==> ps[i] == fs[i].pair
  {
    seq(|fs|, i requires 0 <= i < |fs| => fs[i].pair)
  }

  /** The forms list the options of m in lexical order of their names. */
  ghost predicate Encodes(fs: seq<Form>, m: Options) {
    (forall i :: 0 <= i < |fs| ==> FormOk(fs[i])) && Lists(Pairs(fs), m)
  }

  lemma TakePutForm(f: Form, rest: Octets)
    requires FormOk(f) && |PutForm(f)| + |rest| < 0x1_0000_0000
    ensures TakeTuple(PutForm(f) + rest) == Some((f.pair, rest))
  {
    TakeStringPut(f.pair.key, PutString(Inner(f)) + rest);
    Regroup(PutString(f.pair.key), PutString(Inner(f)), rest);
    TakeStringPut(Inner(f), rest);
    if Inner(f) != [] {
      TakeStringPut(f.pair.value, []);
      assert PutString(f.pair.value) + [] == Inner(f);
    }
  }

  lemma {:induction false} ParsePut(fs: seq<Form>, last: Option<Octets>, sofar: Options)
    requires Ordered(Pairs(fs)) && (forall i :: 0 <= i < |fs| ==> FormOk(fs[i])) && |PutForms(fs)| < 0x1_0000_0000
    requires last.Some? && fs != [] ==> Less(last.value, fs[0].pair.key)
    ensures ParseFrom(PutForms(fs), last, sofar) == Some(Extend(sofar, Pairs(fs)))
    decreases |fs|
  {
    if fs != [] {
      TakePutForm(fs[0], PutForms(fs[1..]));
      assert Pairs(fs)[1..] == Pairs(fs[1..]);
      OrderedRest(Pairs(fs));
      assert fs[1..] != [] ==> Less(Pairs(fs)[0].key, Pairs(fs)[1].key);
      ParsePut(fs[1..], Some(fs[0].pair.key), sofar[fs[0].pair.key := fs[0].pair.value]);
    }
  }

  /** An option that was read is one of the forms, followed by the rest. */
  lemma TupleIsPut(data: Octets) returns (f: Form)
    requires TakeTuple(data).Some?
    ensures FormOk(f) && f.pair == TakeTuple(data).value.0 && data == PutForm(f) + TakeTuple(data).value.1
  {
    var (key, behind) := TakeString(data).value;
    var (outer, rest) := TakeString(behind).value;
    StringIsPut(data);
    StringIsPut(behind);
    f := Form(Pair(key, []), false);
    if outer != [] {
      StringIsPut(outer);
      var value := TakeString(outer).value.0;
      f := Form(Pair(key, value), value == []);
      assert outer == PutString(value) + [] == PutString(value);
    }
    assert Inner(f) == outer;
    Regroup(PutString(key), PutString(outer), rest);
  }

  /** Whatever is accepted is cut into forms with names in strict lexical order. */
  lemma {:induction false} ParsedIsPut(data: Octets, last: Option<Octets>, sofar: Options) returns (fs: seq<Form>)
    requires ParseFrom(data, last, sofar).Some?
    ensures data == PutForms(fs) && Ordered(Pairs(fs)) && forall i :: 0 <= i < |fs| ==> FormOk(fs[i])
    ensures ParseFrom(data, last, sofar).value == Extend(sofar, Pairs(fs))
    ensures last.Some? && fs != [] ==> Less(last.value, fs[0].pair.key)
    decreases |data|
  {
    fs := [];
    if data != [] {
      TakeShortens(data);
      var t := TakeTuple(data).value;
      var f := TupleIsPut(data);
      var others := ParsedIsPut(t.1, Some(t.0.key), sofar[t.0.key := t.0.value]);
      fs := [f] + others;
      OneMore(f, others, sofar);
    }
  }

  lemma OneMore(f: Form, others: seq<Form>, sofar: Options)
    requires Ordered(Pairs(others)) && (others != [] ==> Less(f.pair.key, others[0].pair.key))
    ensures var fs := [f] + others;
            && PutForms(fs) == PutForm(f) + PutForms(others) && Ordered(Pairs(fs))
            && Extend(sofar, Pairs(fs)) == Extend(sofar[f.pair.key := f.pair.value], Pairs(others))
  {
    var fs := [f] + others;
    assert fs[1..] == others && Pairs(fs)[1..] == Pairs(others);
    forall i | 0 < i < |fs| ensures Less(Pairs(fs)[i - 1].key, Pairs(fs)[i].key) {
      assert i > 1 ==> Less(Pairs(others)[i - 2].key, Pairs(others)[i - 1].key);
    }
  }

  /** Exactly which inputs give which map. */
  lemma AcceptedIff(data: Octets, m: Options)
    requires |data| < 0x1_0000_0000
    ensures Parse(data) == Some(m) <==> exists fs :: Encodes(fs, m) && data == PutForms(fs)
  {
    if Parse(data) == Some(m) {
      var fs := ParsedIsPut(data, None, map[]);
      ExtendLists(Pairs(fs));
      assert Encodes(fs, m);
    }
    if fs: seq<Form> :| Encodes(fs, m) && data == PutForms(fs) {
      ParsePut(fs, None, map[]);
      ExtendLists(Pairs(fs));
      ListedMap(Pairs(fs), m, Extend(map[], Pairs(fs)));
    }
  }

  /** The forms that marshalTuples writes. */
  function Plain(ps: seq<Pair>): (fs: seq<Form>)
    ensures |fs| == |ps| && Pairs(fs) == ps && forall i :: 0 <= i < |fs| ==> FormOk(fs[i]) && !fs[i].doubled
  {
    seq(|ps|, i requires 0 <= i < |ps| => Form(ps[i], false))
  }

  lemma {:induction false} PlainIsWritten(fs: seq<Form>)
    requires forall i :: 0 <= i < |fs| ==> !fs[i].doubled
    ensures PutForms(fs) == PutTuples(Pairs(fs))
  {
    if fs != [] {
      PlainIsWritten(fs[1..]);
      assert Pairs(fs)[1..] == Pairs(fs[1..]);
    }
  }

  /** Parsing undoes marshalling, for every map. */
  lemma TuplesRoundTrip(ps: seq<Pair>, m: Options)
    requires Lists(ps, m) && |PutTuples(ps)| < 0x1_0000_0000
    ensures Parse(PutTuples(ps)) == Some(m)
  {
    PlainIsWritten(Plain(ps));
    assert Encodes(Plain(ps), m);
    AcceptedIff(PutTuples(ps), m);
  }

  /** Wrapping the empty value of option i costs four bytes. */
  lemma {:induction false} DoubledIsLonger(fs: seq<Form>, i: nat)
    requires i < |fs| && fs[i] == Form(fs[i].pair, false) && fs[i].pair.value == []
    ensures |PutForms(fs[i := Form(fs[i].pair, true)])| == |PutForms(fs)| + 4
    decreases i
  {
    var f := Form(fs[i].pair, true);
    var gs := fs[i := f];
    if i == 0 {
      assert gs[1..] == fs[1..];
      assert |PutForm(f)| == |PutForm(fs[0])| + 4;
    } else {
      assert gs[1..] == fs[1..][i - 1 := f];
      DoubledIsLonger(fs[1..], i - 1);
    }
  }

  /** What marshalTuples writes is the only input for a map exactly if no option of it is empty. */
  lemma EncodingIsUniqueIff(ps: seq<Pair>, m: Options)
    requires Lists(ps, m) && |PutTuples(ps)| + 4 < 0x1_0000_0000
    ensures (forall data: Octets :: |data| < 0x1_0000_0000 && Parse(data) == Some(m) ==> data == PutTuples(ps)) <==>
            (forall i :: 0 <= i < |ps| ==> ps[i].value != [])
  {
    if i :| 0 <= i < |ps| && ps[i].value == [] {
      var other := OtherEncoding(ps, m, i);
    } else {
      forall data: Octets | |data| < 0x1_0000_0000 && Parse(data) == Some(m) ensures data == PutTuples(ps) {
        OnlyPlain(data, ps, m);
      }
    }
  }

  lemma OnlyPlain(data: Octets, ps: seq<Pair>, m: Options)
    requires Lists(ps, m) && |data| < 0x1_0000_0000 && Parse(data) == Some(m)
    requires forall i :: 0 <= i < |ps| ==> ps[i].value != []
    ensures data == PutTuples(ps)
  {
    AcceptedIff(data, m);
    var fs: seq<Form> :| Encodes(fs, m) && data == PutForms(fs);
    ListIsUnique(Pairs(fs), ps);
    forall i | 0 <= i < |fs| ensures !fs[i].doubled {
      assert FormOk(fs[i]) && ps[i] == fs[i].pair;
    }
    PlainIsWritten(fs);
  }

  lemma OtherEncoding(ps: seq<Pair>, m: Options, i: nat) returns (other: Octets)
    requires Lists(ps, m) && |PutTuples(ps)| + 4 < 0x1_0000_0000 && i < |ps| && ps[i].value == []
    ensures |other| == |PutTuples(ps)| + 4 && Parse(other) == Some(m)
  {
    var fs := Plain(ps);
    var gs := fs[i := Form(ps[i], true)];
    PlainIsWritten(fs);
    DoubledIsLonger(fs, i);
    assert Pairs(gs) == ps;
    assert Encodes(gs, m);
    other := PutForms(gs);
    AcceptedIff(other, m);
  }

  // ---------------------------------------------------------------- the code

  /** Puts an option where it belongs. */
  method Insert(ps: seq<Pair>, p: Pair) returns (r: seq<Pair>)
    requires Ordered(ps) && forall i :: 0 <= i < |ps| ==> ps[i].key != p.key
    ensures Ordered(r) && forall x :: x in r <==> x == p || x in ps
  {
    var i := 0;
    while i < |ps| && Less(ps[i].key, p.key)
      invariant 0 <= i <= |ps| && (i > 0 ==> Less(ps[i - 1].key, p.key))
    {
      i := i + 1;
    }
    if i < |ps| {
      LessIsTotal(ps[i].key, p.key);
    }
    r := ps[..i] + [p] + ps[i..];
    assert ps == ps[..i] + ps[i..];
  }

  /** The options sorted by name. */
  method Sort(m: Options) returns (ps: seq<Pair>)
    ensures Lists(ps, m)
  {
    ps := [];
    var left := m.Keys;
    while left != {}
      invariant left <= m.Keys && Ordered(ps)
      invariant forall p :: p in ps <==> p.key in m && p.key !in left && m[p.key] == p.value
      decreases left
    {
      var k :| k in left;
      forall i | 0 <= i < |ps| ensures ps[i].key != k {
        assert ps[i] in ps;
      }
      ps := Insert(ps, Pair(k, m[k]));
      left := left - {k};
    }
  }

  method WriteTuples(ps: seq<Pair>) returns (ret: Octets)
    ensures ret == PutTuples(ps)
  {
    ret := [];
    var i := 0;
    assert ps[0..] == ps;
    while i < |ps|
      invariant 0 <= i <= |ps| && ret + PutTuples(ps[i..]) == PutTuples(ps)
    {
      assert ps[i..][1..] == ps[i + 1..];
      ghost var one, others := PutTuple(ps[i]), PutTuples(ps[i + 1..]);
      Regroup(ret, one, others);
      ret := ret + PutTuple(ps[i]);
      i := i + 1;
    }
  }

  /** marshalTuples: the options are sorted by name and written one after the other. */
  method MarshalTuples(m: Options) returns (ret: Octets)
    ensures Written(m, ret)
  {
    var ps := Sort(m);
    ret := WriteTuples(ps);
  }

  /** parseTuples. */
  method ParseTuples(data: Octets) returns (r: Option<Options>)
    ensures r == Parse(data)
  {
    var left, last, tups := data, Option<Octets>.None, map[];
    while left != []
      invariant ParseFrom(left, last, tups) == Parse(data)
      decreases |left|
    {
      var t := TakeTuple(left);
      if t == None {
        return None;
      }
      TakeShortens(left);
      var p := t.value.0;
      if last.Some? && !Less(last.value, p.key) {
        return None;
      }
      last, tups, left := Some(p.key), tups[p.key := p.value], t.value.1;
    }
    r := Some(tups);
  }
}
