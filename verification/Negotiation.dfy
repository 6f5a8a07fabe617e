/** Choice of algorithms from two KEXINIT messages: findCommon and findAgreedAlgorithms of common.go. */
module Negotiation {

  import opened Words

  /** A KEXINIT: a random cookie and the sender's preference lists, client to server and back. */
  datatype KexInit = KexInit(cookie: nat, kex: seq<string>, hostKey: seq<string>,
                             ciphersCS: seq<string>, ciphersSC: seq<string>,
                             macsCS: seq<string>, macsSC: seq<string>,
                             compressionCS: seq<string>, compressionSC: seq<string>)

  datatype DirectionAlgorithms = DirectionAlgorithms(cipher: string, mac: string, compression: string)

  /** As in the source, `w` is always client to server and `r` server to client, on either side. */
  datatype Algorithms = Algorithms(kex: string, hostKey: string, w: DirectionAlgorithms, r: DirectionAlgorithms)

  /** The first of the client's choices that the server has too. */
  function FindCommon(client: seq<string>, server: seq<string>): (r: Option<string>)
    ensures r.None? <==> forall c <- client :: c !in server
    ensures r.Some? ==> exists i :: 0 <= i < |client| && client[i] == r.value && r.value in server
                                    && forall j :: 0 <= j < i ==> client[j] !in server
  {
    if client == [] then None
    else if client[0] in server then Some(client[0])
    else
      var r := FindCommon(client[1..], server);
      assert r.Some? ==> exists i :: 0 < i < |client| && client[i] == r.value && r.value in server
                                     && forall j :: 0 <= j < i ==> client[j] !in server by {
        if r.Some? {
          var i :| 0 <= i < |client[1..]| && client[1..][i] == r.value && r.value in server
                   && forall j :: 0 <= j < i ==> client[1..][j] !in server;
          assert client[i + 1] == r.value;
          assert forall j :: 0 < j < i + 1 ==> client[j] == client[1..][j - 1];
        }
      }
      r
  }

  /** The source's two nested loops. */
  method FindCommonLoop(client: seq<string>, server: seq<string>) returns (r: Option<string>)
    ensures r == FindCommon(client, server)
  {
    for i := 0 to |client|
      invariant FindCommon(client, server) == FindCommon(client[i..], server)
    {
      for k := 0 to |server|
        invariant client[i] !in server[..k]
      {
        if client[i] == server[k] {
          return Some(client[i]);
        }
      }
      assert client[i] !in server;
      assert client[i..][1..] == client[i + 1..];
    }
    return None;
  }

  /** The first failure wins, as in the source; a failure ends the key exchange. */
  function FindAgreed(c: KexInit, s: KexInit): Option<Algorithms> {
    var kex := FindCommon(c.kex, s.kex);
    var hostKey := FindCommon(c.hostKey, s.hostKey);
    var wCipher := FindCommon(c.ciphersCS, s.ciphersCS);
    var rCipher := FindCommon(c.ciphersSC, s.ciphersSC);
    var wMac := FindCommon(c.macsCS, s.macsCS);
    var rMac := FindCommon(c.macsSC, s.macsSC);
    var wComp := FindCommon(c.compressionCS, s.compressionCS);
    var rComp := FindCommon(c.compressionSC, s.compressionSC);
    if kex.None? || hostKey.None? || wCipher.None? || rCipher.None? || wMac.None? || rMac.None? || wComp.None?
        || rComp.None?
    then None
    else Some(Algorithms(kex.value, hostKey.value,
                         DirectionAlgorithms(wCipher.value, wMac.value, wComp.value),
                         DirectionAlgorithms(rCipher.value, rMac.value, rComp.value)))
  }

  /** The two lists have a name in common. */
  predicate Shares(client: seq<string>, server: seq<string>) {
    exists name :: name in client && name in server
  }

  /** The name is on both lists, and no name ahead of it on the client's list is on the server's. */
  predicate IsChoice(name: string, client: seq<string>, server: seq<string>) {
    name in server && exists i :: 0 <= i < |client| && client[i] == name
                                  && forall j :: 0 <= j < i ==> client[j] !in server
  }

  /** There is an agreement exactly if all eight pairs of lists share a name. */
  lemma AgreedIff(c: KexInit, s: KexInit)
    ensures FindAgreed(c, s).Some? <==>
            && Shares(c.kex, s.kex) && Shares(c.hostKey, s.hostKey)
            && Shares(c.ciphersCS, s.ciphersCS) && Shares(c.ciphersSC, s.ciphersSC)
            && Shares(c.macsCS, s.macsCS) && Shares(c.macsSC, s.macsSC)
            && Shares(c.compressionCS, s.compressionCS) && Shares(c.compressionSC, s.compressionSC)
  {
    SharedIff(c.kex, s.kex);
    SharedIff(c.hostKey, s.hostKey);
    SharedIff(c.ciphersCS, s.ciphersCS);
    SharedIff(c.ciphersSC, s.ciphersSC);
    SharedIff(c.macsCS, s.macsCS);
    SharedIff(c.macsSC, s.macsSC);
    SharedIff(c.compressionCS, s.compressionCS);
    SharedIff(c.compressionSC, s.compressionSC);
  }

  lemma SharedIff(client: seq<string>, server: seq<string>)
    ensures FindCommon(client, server).Some? <==> Shares(client, server)
  {
  }

  /** What is agreed on is the client's preference, list by list, whoever of the two computes it. */
  lemma AgreedIsChoice(c: KexInit, s: KexInit)
    requires FindAgreed(c, s).Some?
    ensures var a := FindAgreed(c, s).value;
            && IsChoice(a.kex, c.kex, s.kex) && IsChoice(a.hostKey, c.hostKey, s.hostKey)
            && IsChoice(a.w.cipher, c.ciphersCS, s.ciphersCS) && IsChoice(a.r.cipher, c.ciphersSC, s.ciphersSC)
            && IsChoice(a.w.mac, c.macsCS, s.macsCS) && IsChoice(a.r.mac, c.macsSC, s.macsSC)
            && IsChoice(a.w.compression, c.compressionCS, s.compressionCS)
            && IsChoice(a.r.compression, c.compressionSC, s.compressionSC)
  {
  }

  /** A pair of lists has at most one such name. */
  lemma OneChoice(a: string, b: string, client: seq<string>, server: seq<string>)
    requires IsChoice(a, client, server) && IsChoice(b, client, server)
    ensures a == b
  {
    var i :| 0 <= i < |client| && client[i] == a && forall j :: 0 <= j < i ==> client[j] !in server;
    var k :| 0 <= k < |client| && client[k] == b && forall j :: 0 <= j < k ==> client[j] !in server;
    if i < k {} else if k < i {}
  }

  /**
   * What a side advertises, direction by direction, and whether it then uses for each direction what was
   * agreed for it, as section 7.1 of RFC 4253 demands.
   */
  datatype Config = Config(kex: seq<string>, hostKey: seq<string>, ciphersCS: seq<string>, ciphersSC: seq<string>,
                           macsCS: seq<string>, macsSC: seq<string>, conforming: bool)

  function MakeInit(c: Config, cookie: nat): KexInit {
    KexInit(cookie, c.kex, c.hostKey, c.ciphersCS, c.ciphersSC, c.macsCS, c.macsSC, ["none"], ["none"])
  }

  /** The lists of sendKexInit: the same for both directions. */
  predicate Plain(c: Config) {
    c.ciphersCS == c.ciphersSC && c.macsCS == c.macsSC
  }

  /** The two directions come out equal. */
  predicate Meet(c: Config, s: Config) {
    && FindCommon(c.ciphersCS, s.ciphersCS) == FindCommon(c.ciphersSC, s.ciphersSC)
    && FindCommon(c.macsCS, s.macsCS) == FindCommon(c.macsSC, s.macsSC)
  }

  /** What is agreed on for two KEXINITs of sendKexInit, in terms of the lists that the two sides were set up with. */
  lemma AgreedFromConfigs(c: Config, s: Config, i: nat, j: nat)
    ensures FindAgreed(MakeInit(c, i), MakeInit(s, j)).Some? <==>
            && Shares(c.kex, s.kex) && Shares(c.hostKey, s.hostKey)
            && Shares(c.ciphersCS, s.ciphersCS) && Shares(c.ciphersSC, s.ciphersSC)
            && Shares(c.macsCS, s.macsCS) && Shares(c.macsSC, s.macsSC)
    ensures FindAgreed(MakeInit(c, i), MakeInit(s, j)).Some? ==>
            var a := FindAgreed(MakeInit(c, i), MakeInit(s, j)).value;
            && IsChoice(a.kex, c.kex, s.kex) && IsChoice(a.hostKey, c.hostKey, s.hostKey)
            && IsChoice(a.w.cipher, c.ciphersCS, s.ciphersCS) && IsChoice(a.r.cipher, c.ciphersSC, s.ciphersSC)
            && IsChoice(a.w.mac, c.macsCS, s.macsCS) && IsChoice(a.r.mac, c.macsSC, s.macsSC)
            && a.w.compression == a.r.compression == "none"
  {
    var k, l := MakeInit(c, i), MakeInit(s, j);
    assert k.compressionCS[0] in l.compressionCS;
    AgreedIff(k, l);
    if FindAgreed(k, l).Some? {
      AgreedIsChoice(k, l);
    }
  }

  /** The choice depends on the lists only, and gives both directions the same exactly if they come out equal. */
  lemma AgreedMeetIff(c: Config, s: Config, i: nat, j: nat)
    ensures FindAgreed(MakeInit(c, i), MakeInit(s, j)) == FindAgreed(MakeInit(c, 0), MakeInit(s, 0))
    ensures var algs := FindAgreed(MakeInit(c, i), MakeInit(s, j));
            algs.Some? ==> (algs.value.w == algs.value.r <==> Meet(c, s))
  {
  }
}
