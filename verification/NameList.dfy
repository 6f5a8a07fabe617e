/** Comma-separated name lists of section 5 of RFC 4251, as messages.go joins and splits them. */
module NameList {
  import opened Words

  type Name = seq<byte>

  const COMMA: byte := 44

  function Join(names: seq<Name>): seq<byte> {
    if names == [] then [] else if |names| == 1 then names[0] else names[0] + [COMMA] + Join(names[1..])
  }

  /** What bytes.Split returns: always at least one part. */
  function Split(s: seq<byte>): (parts: seq<Name>)
    ensures parts != []
  {
    if s == [] then [[]]
    else
      var others := Split(s[1..]);
      if s[0] == COMMA then [[]] + others else [[s[0]] + others[0]] + others[1..]
  }

  /** parseNameList on the contents: an empty string is the empty list. */
  function Parse(s: seq<byte>): seq<Name> {
    if s == [] then [] else Split(s)
  }

  predicate CommaFree(names: seq<Name>) {
    forall i :: 0 <= i < |names| ==> COMMA !in names[i]
  }

  lemma {:induction false} SplitPlain(s: seq<byte>)
    requires COMMA !in s
    ensures Split(s) == [s]
  {
    if s != [] {
      SplitPlain(s[1..]);
      assert s == [s[0]] + s[1..];
    }
  }

  lemma {:induction false} SplitAtComma(s: Name, t: seq<byte>)
    requires COMMA !in s
    ensures Split(s + [COMMA] + t) == [s] + Split(t)
  {
    if s == [] {
      assert s + [COMMA] + t == [COMMA] + t;
    } else {
      SplitAtComma(s[1..], t);
      assert (s + [COMMA] + t)[1..] == s[1..] + [COMMA] + t;
      assert s == [s[0]] + s[1..];
    }
  }

  lemma {:induction false} SplitJoin(names: seq<Name>)
    requires CommaFree(names) && names != []
    ensures Split(Join(names)) == names
  {
    if |names| == 1 {
      SplitPlain(names[0]);
    } else {
      SplitJoin(names[1..]);
      SplitAtComma(names[0], Join(names[1..]));
      assert names == [names[0]] + names[1..];
    }
  }

  /** Whatever is split has no commas in its parts. */
  lemma {:induction false} SplitIsCommaFree(s: seq<byte>)
    ensures CommaFree(Split(s))
  {
    if s != [] {
      SplitIsCommaFree(s[1..]);
      var others := Split(s[1..]);
      assert forall i :: 1 <= i < |others| ==> others[1..][i - 1] == others[i];
    }
  }

  /** Parsing undoes joining for exactly the lists without commas, except the list of one empty name. */
  lemma ParseJoinIff(names: seq<Name>)
    ensures Parse(Join(names)) == names <==> CommaFree(names) && names != [[]]
  {
    if CommaFree(names) && names != [[]] {
      if names != [] {
        SplitJoin(names);
      }
    } else if Parse(Join(names)) == names {
      SplitIsCommaFree(Join(names));
    }
  }

  /** Two lists that read the same are written the same: splitting loses nothing. */
  lemma {:induction false} JoinSplit(s: seq<byte>)
    ensures Join(Split(s)) == s
  {
    if s != [] {
      var others := Split(s[1..]);
      JoinSplit(s[1..]);
      if s[0] == COMMA {
        assert ([[]] + others)[1..] == others;
      } else {
        var parts := [[s[0]] + others[0]] + others[1..];
        assert parts[1..] == others[1..];
      }
    }
  }
}
