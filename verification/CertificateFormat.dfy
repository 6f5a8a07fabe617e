/**
 * Whole certificates, as Certificate.Marshal writes them and parseCert of certs.go reads them. The key that is
 * certified and the key of the authority are read by parsePubKey, which is a parameter here.
 */
module CertificateFormat {
  import opened Words
  import opened Bytes
  import opened Messages
  import opened Certificates

  /** A public key: its algorithm, and its fields as they go over the wire. */
  datatype Key = Key(algo: Octets, fields: Octets)

  datatype Signature = Signature(format: Octets, blob: Octets)

  datatype Certificate = Certificate(
    nonce: Octets, key: Key, serial: uint64, certType: uint32, keyId: Octets, principals: seq<Octets>,
    validAfter: uint64, validBefore: uint64, critical: Options, extensions: Options, reserved: Octets,
    signatureKey: Key, signature: Option<Signature>)

  /** genericCertData: the fields that all types of certificates share. */
  datatype Generic = Generic(
    serial: uint64, certType: uint32, keyId: Octets, principals: Octets, validAfter: uint64, validBefore: uint64,
    critical: Octets, extensions: Octets, reserved: Octets, signatureKey: Octets, signature: Octets)

  /** parsePubKey: the key of an algorithm at the front of some bytes, and the bytes behind it. */
  type Taker = (Octets, Octets) -> Option<(Key, Octets)>

  /** The fields of a key are read back, whatever follows them. */
  ghost predicate Takes(take: Taker, key: Key) {
    forall rest :: take(key.algo, key.fields + rest) == Some((key, rest))
  }

  /** A key that has only one encoding. */
  ghost predicate TakesOnly(take: Taker, key: Key) {
    forall algo, data :: take(algo, data).Some? && take(algo, data).value.0 == key ==>
      algo == key.algo && data == key.fields + take(algo, data).value.1
  }

  // ---------------------------------------------------------------- the parts

  /** marshalStringList. */
  function PutStrings(names: seq<Octets>): Octets {
    if names == [] then [] else PutString(names[0]) + PutStrings(names[1..])
  }

  /** The principals, read to the end. */
  function TakeStrings(data: Octets): Option<seq<Octets>>
    decreases |data|
  {
    if data == [] then Some([])
    else
      match TakeString(data)
      case None => None
      case Some(first) =>
        match TakeStrings(first.1)
        case None => None
        case Some(others) => Some([first.0] + others)
  }

  lemma {:induction false} StringsRoundTrip(names: seq<Octets>)
    requires |PutStrings(names)| < 0x1_0000_0000
    ensures TakeStrings(PutStrings(names)) == Some(names)
  {
    if names != [] {
      TakeStringPut(names[0], PutStrings(names[1..]));
      StringsRoundTrip(names[1..]);
      assert names == [names[0]] + names[1..];
    }
  }

  lemma {:induction false} StringsArePut(data: Octets)
    requires TakeStrings(data).Some?
    ensures data == PutStrings(TakeStrings(data).value)
    decreases |data|
  {
    if data != [] {
      StringIsPut(data);
      StringsArePut(TakeString(data).value.1);
    }
  }

  function KeyBytes(key: Key): Octets {
    PutString(key.algo) + key.fields
  }

  /** ParsePublicKey. */
  function TakeKey(take: Taker, data: Octets): Option<Key> {
    match TakeString(data)
    case None => None
    case Some(algo) =>
      match take(algo.0, algo.1)
      case None => None
      case Some(key) => if key.1 != [] then None else Some(key.0)
  }

  function SignatureBytes(s: Option<Signature>): Octets {
    if s == None then [] else PutString(s.value.format) + PutString(s.value.blob)
  }

  /** parseSignatureBody, with nothing behind it. */
  function TakeSignature(data: Octets): Option<Signature> {
    match TakeString(data)
    case None => None
    case Some(format) =>
      match TakeString(format.1)
      case None => None
      case Some(blob) => if blob.1 != [] then None else Some(Signature(format.0, blob.0))
  }

  lemma KeyRoundTrip(take: Taker, key: Key)
    requires Takes(take, key) && |KeyBytes(key)| < 0x1_0000_0000
    ensures TakeKey(take, KeyBytes(key)) == Some(key)
  {
    TakeStringPut(key.algo, key.fields);
    assert key.fields + [] == key.fields;
  }

  lemma KeyIsPut(take: Taker, data: Octets)
    requires TakeKey(take, data).Some? && TakesOnly(take, TakeKey(take, data).value)
    ensures data == KeyBytes(TakeKey(take, data).value)
  {
    StringIsPut(data);
  }

  /** A signature is read back, and nothing is read as a signature where there is none. */
  lemma SignatureRoundTrip(s: Option<Signature>)
    requires |SignatureBytes(s)| < 0x1_0000_0000
    ensures TakeSignature(SignatureBytes(s)) == s
  {
    if s.Some? {
      TakeStringPut(s.value.format, PutString(s.value.blob));
      TakeStringPut(s.value.blob, []);
      assert PutString(s.value.blob) + [] == PutString(s.value.blob);
    }
  }

  lemma SignatureIsPut(data: Octets)
    requires TakeSignature(data).Some?
    ensures data == SignatureBytes(TakeSignature(data))
  {
    StringIsPut(data);
    var behind := TakeString(data).value.1;
    StringIsPut(behind);
    assert behind == PutString(TakeString(behind).value.0);
  }

  // ---------------------------------------------------------------- the shared fields

  function Fields(g: Generic): (vs: seq<Value>) {
    [Long(g.serial), Word(g.certType), Text(g.keyId), Text(g.principals), Long(g.validAfter), Long(g.validBefore),
     Text(g.critical), Text(g.extensions), Text(g.reserved), Text(g.signatureKey), Text(g.signature)]
  }

  const FIELDS: seq<Kind> := [
    LongKind, WordKind, TextKind, TextKind, LongKind, LongKind, TextKind, TextKind, TextKind, TextKind, TextKind]

  /** The values of the shared fields, by their names. */
  function Named(vs: seq<Value>): Generic
    requires Kinds(vs) == FIELDS
  {
    assert |vs| == 11 && forall i :: 0 <= i < |vs| ==> KindOf(vs[i]) == FIELDS[i];
    Generic(vs[0].long, vs[1].word, vs[2].text, vs[3].text, vs[4].long, vs[5].long, vs[6].text, vs[7].text,
            vs[8].text, vs[9].text, vs[10].text)
  }

  lemma NamedFields(vs: seq<Value>)
    requires Kinds(vs) == FIELDS
    ensures Fields(Named(vs)) == vs
  {
    assert |vs| == 11 && forall i :: 0 <= i < |vs| ==> KindOf(vs[i]) == FIELDS[i];
  }

  lemma FieldKinds(g: Generic)
    ensures Kinds(Fields(g)) == FIELDS
  {
  }

  lemma {:induction false} TakenKinds(kinds: seq<Kind>, data: Octets)
    requires TakeAll(kinds, data).Some?
    ensures Kinds(TakeAll(kinds, data).value.0) == kinds
    decreases |kinds|
  {
    if kinds != [] {
      var (v, rest) := Take(kinds[0], data).value;
      TakenKinds(kinds[1..], rest);
      var vs := TakeAll(kinds, data).value.0;
      assert Kinds(vs)[1..] == Kinds(vs[1..]) && vs[1..] == TakeAll(kinds[1..], rest).value.0;
      assert KindOf(v) == kinds[0];
      assert Kinds(vs) == [KindOf(v)] + Kinds(vs[1..]);
    }
  }

  function TakeGeneric(data: Octets): Option<Generic> {
    match Unmarshal([], FIELDS, data)
    case None => None
    case Some(vs) =>
      TakenKinds(FIELDS, data);
      Some(Named(vs))
  }

  predicate Simple(kinds: seq<Kind>) {
    forall i :: 0 <= i < |kinds| ==> kinds[i].WordKind? || kinds[i].LongKind? || kinds[i].TextKind?
  }

  lemma SimpleRoundTrip(vs: seq<Value>)
    requires Simple(Kinds(vs)) && 0 < |PutAll(vs)| < 0x1_0000_0000
    ensures Unmarshal([], Kinds(vs), PutAll(vs)) == Some(vs)
  {
    forall i | 0 <= i < |vs| ensures !vs[i].Tail? && !vs[i].Names? {
      assert KindOf(vs[i]) == Kinds(vs)[i];
    }
    Messages.RoundTripIff([], vs);
    assert Marshal([], vs) == PutAll(vs);
  }

  lemma SimpleIsPut(kinds: seq<Kind>, data: Octets)
    requires Simple(kinds) && Unmarshal([], kinds, data).Some?
    ensures data == PutAll(Unmarshal([], kinds, data).value)
  {
    var vs := Unmarshal([], kinds, data).value;
    RewriteIff([], kinds, data);
    NoneIsLax(kinds, data);
    assert Marshal([], vs) == PutAll(vs);
  }

  lemma GenericRoundTrip(g: Generic)
    requires |PutAll(Fields(g))| < 0x1_0000_0000
    ensures TakeGeneric(PutAll(Fields(g))) == Some(g)
  {
    FieldKinds(g);
    SimpleRoundTrip(Fields(g));
  }

  lemma GenericIsPut(data: Octets)
    requires TakeGeneric(data).Some?
    ensures data == PutAll(Fields(TakeGeneric(data).value))
  {
    TakenKinds(FIELDS, data);
    NamedFields(Unmarshal([], FIELDS, data).value);
    SimpleIsPut(FIELDS, data);
  }

  /** Numbers and strings have only one encoding. */
  lemma {:induction false} NoneIsLax(kinds: seq<Kind>, data: Octets)
    requires TakeAll(kinds, data).Some?
    requires Simple(kinds)
    ensures AllCanonical(kinds, data)
    decreases |kinds|
  {
    if kinds != [] {
      NoneIsLax(kinds[1..], Take(kinds[0], data).value.1);
    }
  }

  // ---------------------------------------------------------------- the certificate

  /** The generic part for encodings of the options. */
  function Shared(c: Certificate, critical: Octets, extensions: Octets): Generic {
    Generic(c.serial, c.certType, c.keyId, PutStrings(c.principals), c.validAfter, c.validBefore, critical, extensions,
            c.reserved, KeyBytes(c.signatureKey), SignatureBytes(c.signature))
  }

  /** What stands behind the name. */
  function Body(c: Certificate, critical: Octets, extensions: Octets): Octets {
    PutString(c.nonce) + (c.key.fields + PutAll(Fields(Shared(c, critical, extensions))))
  }

  /** What Certificate.Marshal writes behind the name. */
  ghost predicate IsBody(c: Certificate, data: Octets) {
    exists critical, extensions ::
      Written(c.critical, critical) && Written(c.extensions, extensions) && data == Body(c, critical, extensions)
  }

  /** parseCert. */
  function ParseCert(take: Taker, algo: Octets, data: Octets): Option<Certificate> {
    match TakeString(data)
    case None => None
    case Some(nonce) =>
      match take(algo, nonce.1)
      case None => None
      case Some(key) =>
        match TakeGeneric(key.1)
        case None => None
        case Some(g) => Assemble(take, nonce.0, key.0, g)
  }

  function Assemble(take: Taker, nonce: Octets, key: Key, g: Generic): Option<Certificate> {
    var principals, critical, extensions := TakeStrings(g.principals), Parse(g.critical), Parse(g.extensions);
    var signatureKey, signature := TakeKey(take, g.signatureKey), TakeSignature(g.signature);
    if principals == None || critical == None || extensions == None || signatureKey == None || signature == None then
      None
    else
      Some(Certificate.Certificate(nonce, key, g.serial, g.certType, g.keyId, principals.value,
                                   g.validAfter, g.validBefore, critical.value, extensions.value, g.reserved,
                                   signatureKey.value, signature))
  }

  /**
   * The order of the fields: nonce, key, serial number, type, key id, principals, the time from which and the time
   * before which it is valid, critical options, extensions, reserved bytes, key of the authority, signature.
   */
  lemma Layout(c: Certificate, critical: Octets, extensions: Octets)
    ensures Body(c, critical, extensions) == Concat([
              PutString(c.nonce), c.key.fields, BigEndian(c.serial, 8), BigEndian(c.certType, 4), PutString(c.keyId),
              PutString(PutStrings(c.principals)), BigEndian(c.validAfter, 8), BigEndian(c.validBefore, 8),
              PutString(critical), PutString(extensions), PutString(c.reserved),
              PutString(PutString(c.signatureKey.algo) + c.signatureKey.fields),
              PutString(SignatureBytes(c.signature))])
  {
    var g := Shared(c, critical, extensions);
    var parts := [
      BigEndian(c.serial, 8), BigEndian(c.certType, 4), PutString(c.keyId), PutString(PutStrings(c.principals)),
      BigEndian(c.validAfter, 8), BigEndian(c.validBefore, 8), PutString(critical), PutString(extensions),
      PutString(c.reserved), PutString(PutString(c.signatureKey.algo) + c.signatureKey.fields),
      PutString(SignatureBytes(c.signature))];
    PutOneByOne(Fields(g), parts);
    TwoMore(PutString(c.nonce), c.key.fields, parts);
  }

  lemma {:induction false} PutOneByOne(vs: seq<Value>, parts: seq<Octets>)
    requires |parts| == |vs| && forall i :: 0 <= i < |vs| ==> parts[i] == Put(vs[i])
    ensures PutAll(vs) == Concat(parts)
    decreases |vs|
  {
    if vs != [] {
      PutOneByOne(vs[1..], parts[1..]);
    }
  }

  lemma TwoMore(a: Octets, b: Octets, parts: seq<Octets>)
    ensures Concat([a, b] + parts) == a + (b + Concat(parts))
  {
    assert ([a, b] + parts)[1..] == [b] + parts;
    assert ([b] + parts)[1..] == parts;
  }

  /** Whatever encodings the options have, the body is read as the certificate, if it is signed, and else refused. */
  lemma BodyIsRead(take: Taker, c: Certificate, critical: Octets, extensions: Octets)
    requires Takes(take, c.key) && Takes(take, c.signatureKey)
    requires Parse(critical) == Some(c.critical) && Parse(extensions) == Some(c.extensions)
    requires |Body(c, critical, extensions)| < 0x1_0000_0000
    ensures ParseCert(take, c.key.algo, Body(c, critical, extensions)) == if c.signature.Some? then Some(c) else None
  {
    var g := Shared(c, critical, extensions);
    var put := PutAll(Fields(g));
    TakeStringPut(c.nonce, c.key.fields + put);
    assert take(c.key.algo, c.key.fields + put) == Some((c.key, put));
    PartsFit(c, critical, extensions);
    GenericRoundTrip(g);
    PartsAreRead(take, c, critical, extensions);
  }

  lemma PartsAreRead(take: Taker, c: Certificate, critical: Octets, extensions: Octets)
    requires Takes(take, c.signatureKey)
    requires Parse(critical) == Some(c.critical) && Parse(extensions) == Some(c.extensions)
    requires |Body(c, critical, extensions)| < 0x1_0000_0000
    ensures Assemble(take, c.nonce, c.key, Shared(c, critical, extensions)) ==
            if c.signature.Some? then Some(c) else None
  {
    PartsFit(c, critical, extensions);
    StringsRoundTrip(c.principals);
    KeyRoundTrip(take, c.signatureKey);
    SignatureRoundTrip(c.signature);
  }

  lemma PartsFit(c: Certificate, critical: Octets, extensions: Octets)
    ensures var g, whole := Shared(c, critical, extensions), |Body(c, critical, extensions)|;
            && |PutAll(Fields(g))| <= whole
            && |g.principals| <= whole && |g.critical| <= whole && |g.extensions| <= whole
            && |g.signatureKey| <= whole && |g.signature| <= whole
  {
    var g := Shared(c, critical, extensions);
    var vs := Fields(g);
    forall i | 0 <= i < |vs| ensures |Put(vs[i])| <= |PutAll(vs)| {
      PutFits(vs, i);
    }
    assert vs[3] == Text(g.principals) && vs[6] == Text(g.critical) && vs[7] == Text(g.extensions);
    assert vs[9] == Text(g.signatureKey) && vs[10] == Text(g.signature);
  }

  lemma {:induction false} PutFits(vs: seq<Value>, i: nat)
    requires i < |vs|
    ensures |Put(vs[i])| <= |PutAll(vs)|
    decreases i
  {
    if i > 0 {
      PutFits(vs[1..], i - 1);
    }
  }

  /** parseCert gives back what Certificate.Marshal wrote exactly if the certificate is signed. */
  lemma RoundTripIff(take: Taker, c: Certificate, data: Octets)
    requires Takes(take, c.key) && Takes(take, c.signatureKey)
    requires IsBody(c, data) && |data| < 0x1_0000_0000
    ensures ParseCert(take, c.key.algo, data) == Some(c) <==> c.signature.Some?
  {
    var critical: Octets, extensions: Octets :|
      Written(c.critical, critical) && Written(c.extensions, extensions) && data == Body(c, critical, extensions);
    PartsFit(c, critical, extensions);
    WrittenIsRead(c.critical, critical);
    WrittenIsRead(c.extensions, extensions);
    BodyIsRead(take, c, critical, extensions);
  }

  lemma WrittenIsRead(m: Options, out: Octets)
    requires Written(m, out) && |out| < 0x1_0000_0000
    ensures Parse(out) == Some(m)
  {
    var ps : seq<Pair> :| Lists(ps, m) && out == PutTuples(ps);
    TuplesRoundTrip(ps, m);
  }

  /** Whatever is accepted is the body of the certificate, for the encodings of the options that were read. */
  lemma AcceptedIsBody(take: Taker, algo: Octets, data: Octets) returns (critical: Octets, extensions: Octets)
    requires ParseCert(take, algo, data).Some?
    requires var c := ParseCert(take, algo, data).value; TakesOnly(take, c.key) && TakesOnly(take, c.signatureKey)
    ensures var c := ParseCert(take, algo, data).value;
            && Parse(critical) == Some(c.critical) && Parse(extensions) == Some(c.extensions)
            && data == Body(c, critical, extensions) && algo == c.key.algo && c.signature.Some?
  {
    var c := ParseCert(take, algo, data).value;
    var (nonce, rest) := TakeString(data).value;
    var (key, behind) := take(algo, rest).value;
    var g := TakeGeneric(behind).value;
    critical, extensions := g.critical, g.extensions;
    StringIsPut(data);
    GenericIsPut(behind);
    StringsArePut(g.principals);
    KeyIsPut(take, g.signatureKey);
    SignatureIsPut(g.signature);
    assert g == Shared(c, critical, extensions);
  }

  /**
   * A signed certificate has only one encoding, what Certificate.Marshal writes, exactly if none of its options is
   * empty: only then is the signature sure to be checked over the bytes that were received.
   */
  lemma OneEncodingIff(take: Taker, c: Certificate, data: Octets)
    requires Takes(take, c.key) && Takes(take, c.signatureKey)
    requires TakesOnly(take, c.key) && TakesOnly(take, c.signatureKey)
    requires IsBody(c, data) && c.signature.Some? && |data| + 4 < 0x1_0000_0000
    ensures (forall other :: |other| < 0x1_0000_0000 && ParseCert(take, c.key.algo, other) == Some(c) ==> other == data)
            <==> [] !in c.critical.Values && [] !in c.extensions.Values
  {
    var critical: Octets, extensions: Octets :|
      Written(c.critical, critical) && Written(c.extensions, extensions) && data == Body(c, critical, extensions);
    PartsFit(c, critical, extensions);
    WrittenIsRead(c.critical, critical);
    WrittenIsRead(c.extensions, extensions);
    if [] in c.critical.Values {
      var other := OtherOptions(c.critical, critical);
      LengthOf(c, critical, extensions, other, extensions);
      BodyIsRead(take, c, other, extensions);
    } else if [] in c.extensions.Values {
      var other := OtherOptions(c.extensions, extensions);
      LengthOf(c, critical, extensions, critical, other);
      BodyIsRead(take, c, critical, other);
    } else {
      forall other | |other| < 0x1_0000_0000 && ParseCert(take, c.key.algo, other) == Some(c) ensures other == data {
        var first, second := AcceptedIsBody(take, c.key.algo, other);
        PartsFit(c, first, second);
        OnlyOptions(c.critical, critical, first);
        OnlyOptions(c.extensions, extensions, second);
      }
    }
  }

  lemma LengthOf(c: Certificate, critical: Octets, extensions: Octets, critical': Octets, extensions': Octets)
    ensures |Body(c, critical', extensions')| ==
            |Body(c, critical, extensions)| + |critical'| - |critical| + |extensions'| - |extensions|
  {
    var vs := Fields(Shared(c, critical, extensions));
    var ws := vs[6 := Text(critical')];
    ReplaceOne(vs, 6, Text(critical'));
    ReplaceOne(ws, 7, Text(extensions'));
    assert ws[7 := Text(extensions')] == Fields(Shared(c, critical', extensions'));
  }

  lemma {:induction false} ReplaceOne(vs: seq<Value>, i: nat, w: Value)
    requires i < |vs|
    ensures |PutAll(vs[i := w])| == |PutAll(vs)| - |Put(vs[i])| + |Put(w)|
    decreases i
  {
    if i == 0 {
      assert vs[i := w][1..] == vs[1..];
    } else {
      assert vs[i := w][1..] == vs[1..][i - 1 := w];
      ReplaceOne(vs[1..], i - 1, w);
    }
  }

  lemma OtherOptions(m: Options, out: Octets) returns (other: Octets)
    requires Written(m, out) && |out| + 4 < 0x1_0000_0000 && [] in m.Values
    ensures |other| == |out| + 4 && Parse(other) == Some(m)
  {
    var ps : seq<Pair> :| Lists(ps, m) && out == PutTuples(ps);
    var k :| k in m && m[k] == [];
    assert Pair(k, []) in ps;
    var i :| 0 <= i < |ps| && ps[i] == Pair(k, []);
    other := OtherEncoding(ps, m, i);
  }

  lemma OnlyOptions(m: Options, out: Octets, other: Octets)
    requires Written(m, out) && [] !in m.Values && |other| < 0x1_0000_0000 && Parse(other) == Some(m)
    ensures other == out
  {
    var ps : seq<Pair> :| Lists(ps, m) && out == PutTuples(ps);
    forall i | 0 <= i < |ps| ensures ps[i].value != [] {
      assert ps[i] in ps;
    }
    OnlyPlain(other, ps, m);
  }

  // ---------------------------------------------------------------- the code

  method MarshalStringList(names: seq<Octets>) returns (to: Octets)
    ensures to == PutStrings(names)
  {
    to := [];
    var i := 0;
    assert names[0..] == names;
    while i < |names|
      invariant 0 <= i <= |names| && to + PutStrings(names[i..]) == PutStrings(names)
    {
      assert names[i..][1..] == names[i + 1..];
      Regroup(to, PutString(names[i]), PutStrings(names[i + 1..]));
      to := to + PutString(names[i]);
      i := i + 1;
    }
  }

  /** Certificate.Marshal, for the name of the type of certificate. */
  method MarshalCertificate(name: Octets, c: Certificate) returns (result: Octets)
    ensures exists data :: IsBody(c, data) && result == PutString(name) + data
  {
    var principals := MarshalStringList(c.principals);
    var critical := MarshalTuples(c.critical);
    var extensions := MarshalTuples(c.extensions);
    var generic := Generic(c.serial, c.certType, c.keyId, principals, c.validAfter, c.validBefore, critical, extensions,
                           c.reserved, KeyBytes(c.signatureKey), []);
    if c.signature.Some? {
      generic := generic.(signature := SignatureBytes(c.signature));
    }
    var genericBytes := Marshal([], Fields(generic));
    var prefix := Marshal([], [Text(name), Text(c.nonce), Tail(c.key.fields)]);
    result := prefix + genericBytes;
    Prefix(name, c.nonce, c.key.fields, PutAll(Fields(generic)));
    assert IsBody(c, Body(c, critical, extensions));
  }

  lemma Prefix(name: Octets, nonce: Octets, fields: Octets, generic: Octets)
    ensures Marshal([], [Text(name), Text(nonce), Tail(fields)]) + ([] + generic) ==
            PutString(name) + (PutString(nonce) + (fields + generic))
  {
    var parts := [PutString(name), PutString(nonce)] + [fields];
    PutOneByOne([Text(name), Text(nonce), Tail(fields)], parts);
    TwoMore(PutString(name), PutString(nonce), [fields]);
    OnePart(fields);
    Grouped(PutString(name), PutString(nonce), fields, generic);
  }

  lemma OnePart(s: Octets)
    ensures Concat([s]) == s
  {
    assert [s][1..] == [];
  }

  lemma Grouped(a: Octets, b: Octets, c: Octets, d: Octets)
    ensures [] + (a + (b + c)) + ([] + d) == a + (b + (c + d))
  {
  }

  /** bytesForSigning: a certificate without a signature, without the four bytes of its length. */
  method BytesForSigning(name: Octets, c: Certificate) returns (r: Octets)
    ensures exists data :: IsBody(c, data) && PutString(name) + data == r + PutString(SignatureBytes(c.signature))
  {
    var out := MarshalCertificate(name, c.(signature := None));
    ghost var data :| IsBody(c.(signature := None), data) && out == PutString(name) + data;
    SignedThenSignature(c, data);
    r := out[..|out| - 4];
    Regroup(PutString(name), data[..|data| - 4], PutString(SignatureBytes(c.signature)));
  }

  /** A body is that of the unsigned certificate without its last four bytes, and the signature as a string. */
  lemma SignedThenSignature(c: Certificate, data: Octets)
    requires IsBody(c.(signature := None), data)
    ensures |data| >= 4 && IsBody(c, data[..|data| - 4] + PutString(SignatureBytes(c.signature)))
  {
    var d := c.(signature := None);
    var critical: Octets, extensions: Octets :|
      Written(d.critical, critical) && Written(d.extensions, extensions) && data == Body(d, critical, extensions);
    BodyWithout(c, critical, extensions);
    assert IsBody(c, Body(c, critical, extensions)) by {
      assert Written(c.critical, critical) && Written(c.extensions, extensions);
    }
  }

  lemma BodyWithout(c: Certificate, critical: Octets, extensions: Octets)
    ensures var out := Body(c.(signature := None), critical, extensions);
            |out| >= 4 && Body(c, critical, extensions) == out[..|out| - 4] + PutString(SignatureBytes(c.signature))
  {
    var g, h := Shared(c, critical, extensions), Shared(c.(signature := None), critical, extensions);
    EndsWithSignature(g);
    EndsWithSignature(h);
    SplitOff(PutString(c.nonce), c.key.fields, PutAll(Unsigned(g)), SignatureBytes(c.signature));
  }

  /** The fields without the signature. */
  function Unsigned(g: Generic): seq<Value> {
    Fields(g)[..10]
  }

  lemma EndsWithSignature(g: Generic)
    ensures PutAll(Fields(g)) == PutAll(Unsigned(g)) + PutString(g.signature)
    ensures Unsigned(g) == Unsigned(g.(signature := []))
  {
    PutLast(Fields(g));
  }

  lemma {:induction false} PutLast(vs: seq<Value>)
    requires vs != []
    ensures PutAll(vs) == PutAll(vs[..|vs| - 1]) + Put(vs[|vs| - 1])
    decreases |vs|
  {
    if |vs| > 1 {
      PutLast(vs[1..]);
      assert vs[1..][..|vs| - 2] == vs[..|vs| - 1][1..];
    } else {
      assert PutAll(vs[1..]) == [] && PutAll(vs[..0]) == [];
    }
  }

  lemma SplitOff(nonce: Octets, fields: Octets, shared: Octets, signature: Octets)
    ensures var out := nonce + (fields + (shared + PutString([])));
            && |out| >= 4
            && nonce + (fields + (shared + PutString(signature))) == out[..|out| - 4] + PutString(signature)
  {
    var out := nonce + (fields + (shared + PutString([])));
    assert out[..|out| - 4] == nonce + fields + shared;
  }

  /** The loop over the principals. */
  method ParsePrincipals(data: Octets) returns (r: Option<seq<Octets>>)
    ensures r == TakeStrings(data)
  {
    var principals, names: seq<Octets> := data, [];
    while principals != []
      invariant TakeStrings(data).Some? <==> TakeStrings(principals).Some?
      invariant TakeStrings(data).Some? ==> TakeStrings(data).value == names + TakeStrings(principals).value
      decreases |principals|
    {
      var first := TakeString(principals);
      if first == None {
        return None;
      }
      StringIsPut(principals);
      names, principals := names + [first.value.0], first.value.1;
    }
    assert names + [] == names;
    r := Some(names);
  }

  /** parseCert. */
  method ParseCertificate(take: Taker, algo: Octets, data: Octets) returns (r: Option<Certificate>)
    ensures r == ParseCert(take, algo, data)
  {
    var nonce := TakeString(data);
    if nonce == None {
      return None;
    }
    var key := take(algo, nonce.value.1);
    if key == None {
      return None;
    }
    var generic := TakeGeneric(key.value.1);
    if generic == None {
      return None;
    }
    var g := generic.value;
    var principals := ParsePrincipals(g.principals);
    var critical := ParseTuples(g.critical);
    var extensions := ParseTuples(g.extensions);
    var signatureKey, signature := TakeKey(take, g.signatureKey), TakeSignature(g.signature);
    if principals == None || critical == None || extensions == None || signatureKey == None || signature == None {
      return None;
    }
    r := Some(Certificate.Certificate(nonce.value.0, key.value.0, g.serial, g.certType, g.keyId, principals.value,
      g.validAfter, g.validBefore, critical.value, extensions.value, g.reserved, signatureKey.value, signature));
  }
}
