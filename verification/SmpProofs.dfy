/**
 * What the zero-knowledge checks of otr/smp.go accept, in the exponents of the group: the exact condition
 * for each message, what an accepted proof shows, and that responses show nothing of the secrets.
 */
module SmpProofs {
  import opened Modular
  import opened Smp

  // ---------------------------------------------------------------- the commitments

  /** What a verifier puts together for one base: the powers of two elements of the group. */
  lemma Together(G: Group, el: Powers, t: int, d: nat, a: int, c: nat)
    requires Laws(G, el)
    ensures G.mul(G.exp(el(t), d), G.exp(el(a), c)) == el(t * d + a * c)
  {
    ExpLaw(G, el, t, d);
    ExpLaw(G, el, a, c);
    MulLaw(G, el, t * d, a * c);
  }

  lemma TogetherThree(G: Group, el: Powers, d5: nat, e2: int, d6: nat, y: int, c: nat)
    requires Laws(G, el)
    ensures G.mul(G.mul(G.exp(G.g, d5), G.exp(el(e2), d6)), G.exp(el(y), c)) == el(d5 + e2 * d6 + y * c)
  {
    Together(G, el, 1, d5, e2, d6);
    ExpLaw(G, el, y, c);
    MulLaw(G, el, d5 + e2 * d6, y * c);
  }

  /** A proof about g^a passes exactly if the challenge is the hash of g to the power d + a*c. */
  lemma KnowsIff(G: Group, H: Hash, el: Powers, magic: nat, a: int, c: nat, d: nat)
    requires Laws(G, el)
    ensures Knows(G, H, magic, el(a), c, d) <==> c == H(magic, [el(d + a * c)])
  {
    Together(G, el, 1, d, a, c);
  }

  lemma CoordinatesIff(G: Group, H: Hash, el: Powers, magic: nat, e2: int, e3: int, x: int, y: int, c: nat, d5: nat,
      d6: nat)
    requires Laws(G, el)
    ensures Coordinates(G, H, magic, el(e2), el(e3), el(x), el(y), c, d5, d6) <==>
            c == H(magic, [el(e3 * d5 + x * c), el(d5 + e2 * d6 + y * c)])
  {
    Together(G, el, e3, d5, x, c);
    TogetherThree(G, el, d5, e2, d6, y, c);
  }

  lemma SamePowerIff(G: Group, H: Hash, el: Powers, magic: nat, a: int, t: int, w: int, c: nat, d7: nat)
    requires Laws(G, el)
    ensures SamePower(G, H, magic, el(a), el(t), el(w), c, d7) <==>
            c == H(magic, [el(d7 + a * c), el(t * d7 + w * c)])
  {
    Together(G, el, 1, d7, a, c);
    Together(G, el, t, d7, w, c);
  }

  // ---------------------------------------------------------------- the four messages

  /** SMP1 passes exactly with six numbers that prove both exponents under the magic numbers 1 and 2. */
  lemma Accepts1Iff(G: Group, H: Hash, el: Powers, m: seq<nat>, a2: int, a3: int)
    requires Laws(G, el) && (|m| == 6 ==> m[0] == el(a2) && m[3] == el(a3))
    ensures Accepts1(G, H, m) <==>
            |m| == 6 && m[1] == H(1, [el(m[2] + a2 * m[1])]) && m[4] == H(2, [el(m[5] + a3 * m[4])])
  {
    if |m| == 6 {
      KnowsIff(G, H, el, 1, a2, m[1], m[2]);
      KnowsIff(G, H, el, 2, a3, m[4], m[5]);
    }
  }

  /** SMP2, for a starter with the exponents x2 and x3: 3 and 4, and 5 for the blinded secret. */
  lemma Accepts2Iff(G: Group, H: Hash, el: Powers, x2: nat, x3: nat, m: seq<nat>, b2: int, b3: int, p: int, q: int)
    requires Laws(G, el)
    requires |m| == 11 ==> m[0] == el(b2) && m[3] == el(b3) && m[6] == el(p) && m[7] == el(q)
    ensures Accepts2(G, H, x2, x3, m) <==>
            && |m| == 11
            && m[1] == H(3, [el(m[2] + b2 * m[1])]) && m[4] == H(4, [el(m[5] + b3 * m[4])])
            && m[8] == H(5, [el(b3 * x3 * m[9] + p * m[8]), el(m[9] + b2 * x2 * m[10] + q * m[8])])
  {
    if |m| == 11 {
      KnowsIff(G, H, el, 3, b2, m[1], m[2]);
      KnowsIff(G, H, el, 4, b3, m[4], m[5]);
      ExpLaw(G, el, b2, x2);
      ExpLaw(G, el, b3, x3);
      CoordinatesIff(G, H, el, 5, b2 * x2, b3 * x3, p, q, m[8], m[9], m[10]);
    }
  }

  /** SMP3, for an answerer that holds g^e2, g^e3 and g^s and has got g^a3. */
  lemma Accepts3Iff(G: Group, H: Hash, el: Powers, k: Held, m: seq<nat>, e2: int, e3: int, s: int, a3: int, p: int,
      q: int, w: int)
    requires Laws(G, el) && k.g2 == el(e2) && k.g3 == el(e3) && k.qb == el(s)
    requires |m| == 8 ==> m[0] == el(p) && m[1] == el(q) && m[5] == el(w)
    ensures Accepts3(G, H, k, el(a3), m) <==>
            && |m| == 8
            && m[2] == H(6, [el(e3 * m[3] + p * m[2]), el(m[3] + e2 * m[4] + q * m[2])])
            && m[6] == H(7, [el(m[7] + a3 * m[6]), el((q - s) * m[7] + w * m[6])])
  {
    if |m| == 8 {
      CoordinatesIff(G, H, el, 6, e2, e3, p, q, m[2], m[3], m[4]);
      InvLaw(G, el, s);
      MulLaw(G, el, q, -s);
      SamePowerIff(G, H, el, 7, a3, q - s, w, m[6], m[7]);
    }
  }

  /** SMP4, for a starter that has got g^b3 and compares g^t. */
  lemma Accepts4Iff(G: Group, H: Hash, el: Powers, m: seq<nat>, b3: int, t: int, w: int)
    requires Laws(G, el) && (|m| == 3 ==> m[0] == el(w))
    ensures Accepts4(G, H, el(b3), el(t), m) <==>
            |m| == 3 && m[1] == H(8, [el(m[2] + b3 * m[1]), el(t * m[2] + w * m[1])])
  {
    if |m| == 3 {
      SamePowerIff(G, H, el, 8, b3, t, w, m[1], m[2]);
    }
  }

  // ---------------------------------------------------------------- what is refused

  /** With another response the same challenge passes only if two different inputs have the same hash. */
  lemma AlteredIsRefused(G: Group, H: Hash, el: Powers, magic: nat, a: int, c: nat, d: nat, d': nat)
    requires Laws(G, el) && Faithful(G, el) && (d - d') % G.q != 0
    requires Knows(G, H, magic, el(a), c, d) && Knows(G, H, magic, el(a), c, d')
    ensures exists u, v {:trigger H(magic, u), H(magic, v)} :: u != v && H(magic, u) == H(magic, v) == c
  {
    KnowsIff(G, H, el, magic, a, c, d);
    KnowsIff(G, H, el, magic, a, c, d');
    assert At(d + a * c, d' + a * c);
    var u, v := [el(d + a * c)], [el(d' + a * c)];
    assert u[0] != v[0];
    assert H(magic, u) == H(magic, v) == c;
  }

  // ---------------------------------------------------------------- what an accepted proof shows

  lemma ZeroDifference(x: int, y: int, q: nat)
    requires 0 < q && x % q == 0 && y % q == 0
    ensures (x - y) % q == 0
  {
    ModEqual(x, y, q);
  }

  lemma ZeroMultiple(w: int, x: int, q: nat)
    requires 0 < q && x % q == 0
    ensures w * x % q == 0
  {
    ZeroFactor(q, w, x);
  }

  /** The answers d to c and d' to c' have the exponent z. */
  predicate Solves(q: nat, z: int, c: nat, d: nat, c': nat, d': nat)
    requires q > 0
  {
    (z * (c - c') - (d' - d)) % q == 0
  }

  lemma Extract(q: nat, w: int, p: int, z: int, c: nat, d: nat, c': nat, d': nat)
    requires Prime(q) && (c - c') % q != 0 && Solves(q, z, c, d, c', d')
    requires (w * d + p * c - (w * d' + p * c')) % q == 0
    ensures (p - w * z) % q == 0
  {
    var x, y := w * d + p * c - (w * d' + p * c'), z * (c - c') - (d' - d);
    ZeroMultiple(w, y, q);
    ZeroDifference(x, w * y, q);
    Eliminate(w, p, z, c, d, c', d');
    PrimeDivides(q, p - w * z, c - c');
  }

  lemma Eliminate(w: int, p: int, z: int, c: int, d: int, c': int, d': int)
    ensures w * d + p * c - (w * d' + p * c') - w * (z * (c - c') - (d' - d)) == (p - w * z) * (c - c')
  {
  }

  /**
   * Who can answer two different challenges for one commitment knows the exponent: it is the only solution of
   * the two answers.
   */
  lemma KnowsIsSound(G: Group, el: Powers, a: int, z: int, c: nat, d: nat, c': nat, d': nat)
    requires Laws(G, el) && Faithful(G, el) && (c - c') % G.q != 0 && Solves(G.q, z, c, d, c', d')
    requires G.mul(G.exp(G.g, d), G.exp(el(a), c)) == G.mul(G.exp(G.g, d'), G.exp(el(a), c'))
    ensures el(a) == el(z)
  {
    Together(G, el, 1, d, a, c);
    Together(G, el, 1, d', a, c');
    assert At(d + a * c, d' + a * c');
    Extract(G.q, 1, a, z, c, d, c', d');
    assert At(a, z);
  }

  /** The element of SMP3 and SMP4 is the quotient to the power that makes the public element. */
  lemma SamePowerIsSound(G: Group, el: Powers, a: int, t: int, w: int, z: int, c: nat, d: nat, c': nat, d': nat)
    requires Laws(G, el) && Faithful(G, el) && (c - c') % G.q != 0 && Solves(G.q, z, c, d, c', d')
    requires G.mul(G.exp(G.g, d), G.exp(el(a), c)) == G.mul(G.exp(G.g, d'), G.exp(el(a), c'))
    requires G.mul(G.exp(el(t), d), G.exp(el(w), c)) == G.mul(G.exp(el(t), d'), G.exp(el(w), c'))
    ensures el(a) == el(z) && el(w) == el(t * z)
  {
    KnowsIsSound(G, el, a, z, c, d, c', d');
    Together(G, el, t, d, w, c);
    Together(G, el, t, d', w, c');
    assert At(t * d + w * c, t * d' + w * c');
    Extract(G.q, t, w, z, c, d, c', d');
    assert At(w, t * z);
  }

  /** The two elements of a blinded secret are made of one blinding exponent and one secret. */
  lemma CoordinatesAreSound(G: Group, el: Powers, e2: int, e3: int, x: int, y: int, z: int, secret: int, c: nat,
      d5: nat, d6: nat, c': nat, d5': nat, d6': nat)
    requires Laws(G, el) && Faithful(G, el) && (c - c') % G.q != 0
    requires Solves(G.q, z, c, d5, c', d5') && Solves(G.q, secret, c, d6, c', d6')
    requires G.mul(G.exp(el(e3), d5), G.exp(el(x), c)) == G.mul(G.exp(el(e3), d5'), G.exp(el(x), c'))
    requires G.mul(G.mul(G.exp(G.g, d5), G.exp(el(e2), d6)), G.exp(el(y), c)) ==
             G.mul(G.mul(G.exp(G.g, d5'), G.exp(el(e2), d6')), G.exp(el(y), c'))
    ensures el(x) == el(e3 * z) && el(y) == el(z + e2 * secret)
  {
    Together(G, el, e3, d5, x, c);
    Together(G, el, e3, d5', x, c');
    assert At(e3 * d5 + x * c, e3 * d5' + x * c');
    Extract(G.q, e3, x, z, c, d5, c', d5');
    assert At(x, e3 * z);
    TogetherThree(G, el, d5, e2, d6, y, c);
    TogetherThree(G, el, d5', e2, d6', y, c');
    assert At(d5 + e2 * d6 + y * c, d5' + e2 * d6' + y * c');
    ExtractBoth(G.q, e2, y, z, secret, c, d5, d6, c', d5', d6');
    assert At(y, z + e2 * secret);
  }

  lemma ExtractBoth(q: nat, e2: int, y: int, z: int, x: int, c: nat, d5: nat, d6: nat, c': nat, d5': nat, d6': nat)
    requires Prime(q) && (c - c') % q != 0 && Solves(q, z, c, d5, c', d5') && Solves(q, x, c, d6, c', d6')
    requires (d5 + e2 * d6 + y * c - (d5' + e2 * d6' + y * c')) % q == 0
    ensures (y - (z + e2 * x)) % q == 0
  {
    var s := d5 + e2 * d6 + y * c - (d5' + e2 * d6' + y * c');
    var t, u := z * (c - c') - (d5' - d5), x * (c - c') - (d6' - d6);
    ZeroMultiple(e2, u, q);
    ZeroDifference(s, t, q);
    ZeroDifference(s - t, e2 * u, q);
    EliminateBoth(e2, y, z, x, c, d5, d6, c', d5', d6');
    PrimeDivides(q, y - (z + e2 * x), c - c');
  }

  lemma EliminateBoth(e2: int, y: int, z: int, x: int, c: int, d5: int, d6: int, c': int, d5': int, d6': int)
    ensures d5 + e2 * d6 + y * c - (d5' + e2 * d6' + y * c') - (z * (c - c') - (d5' - d5))
            - e2 * (x * (c - c') - (d6' - d6)) == (y - (z + e2 * x)) * (c - c')
  {
  }

  // ---------------------------------------------------------------- what responses hide

  /** A hash that gives every proof a challenge of its own, whatever is hashed. */
  function Fixed(c: nat -> nat): Hash {
    (magic, xs) => c(magic)
  }

  /** The draw r gives the response d to challenge c for the exponent a. */
  predicate Drawn(q: nat, r: int, a: int, c: int, d: int)
    requires q > 0
  {
    (r - (d + a * c)) % q == 0
  }

  lemma ResponseIff(G: Group, r: nat, a: nat, c: nat, d: nat)
    requires d < G.q
    ensures Response(G, r, a, c) == d <==> Drawn(G.q, r, a, c, d)
  {
    var t := a * c;
    ResidueIff(r - t, d, G.q);
    assert r - (d + t) == r - t - d;
  }

  lemma ResidueIff(x: int, d: nat, q: nat)
    requires d < q
    ensures x % q == d <==> (x - d) % q == 0
  {
    ModEqual(x, d, q);
  }

  /**
   * For given challenges, every response below q comes from exactly one draw modulo q, whatever the
   * exponent is, and each response of a message from a draw of its own: responses say nothing of the exponents.
   */
  lemma Responses1(G: Group, c: nat -> nat, r: Draws1, d2: nat, d3: nat)
    requires d2 < G.q && d3 < G.q
    ensures var m := Smp1(G, Fixed(c), r);
            m[2] == d2 && m[5] == d3 <==> Drawn(G.q, r.r2, r.a2, c(1), d2) && Drawn(G.q, r.r3, r.a3, c(2), d3)
  {
    ResponseIff(G, r.r2, r.a2, c(1), d2);
    ResponseIff(G, r.r3, r.a3, c(2), d3);
  }

  lemma Responses2(G: Group, c: nat -> nat, k: Held, secret: nat, r: Draws2, d2: nat, d3: nat, d5: nat, d6: nat)
    requires d2 < G.q && d3 < G.q && d5 < G.q && d6 < G.q
    ensures var m := Smp2(G, Fixed(c), k, secret, r);
            m[2] == d2 && m[5] == d3 && m[9] == d5 && m[10] == d6 <==>
            && Drawn(G.q, r.r2, r.b2, c(3), d2) && Drawn(G.q, r.r3, r.b3, c(4), d3)
            && Drawn(G.q, r.r5, r.r4, c(5), d5) && Drawn(G.q, r.r6, secret, c(5), d6)
  {
    ResponseIff(G, r.r2, r.b2, c(3), d2);
    ResponseIff(G, r.r3, r.b3, c(4), d3);
    ResponseIff(G, r.r5, r.r4, c(5), d5);
    ResponseIff(G, r.r6, secret, c(5), d6);
  }

  lemma Responses3(G: Group, c: nat -> nat, a2: nat, a3: nat, m2: seq<nat>, secret: nat, r: Draws3, d5: nat, d6: nat,
      d7: nat)
    requires |m2| == 11 && d5 < G.q && d6 < G.q && d7 < G.q
    ensures var m := Smp3(G, Fixed(c), a2, a3, m2, secret, r);
            m[3] == d5 && m[4] == d6 && m[7] == d7 <==>
            && Drawn(G.q, r.r5, r.r4, c(6), d5) && Drawn(G.q, r.r6, secret, c(6), d6)
            && Drawn(G.q, r.r7, a3, c(7), d7)
  {
    ResponseIff(G, r.r5, r.r4, c(6), d5);
    ResponseIff(G, r.r6, secret, c(6), d6);
    ResponseIff(G, r.r7, a3, c(7), d7);
  }

  lemma Responses4(G: Group, c: nat -> nat, k: Held, b3: nat, m3: seq<nat>, r7: nat, d7: nat)
    requires |m3| == 8 && d7 < G.q
    ensures Smp4(G, Fixed(c), k, b3, m3, r7)[2] == d7 <==> Drawn(G.q, r7, b3, c(8), d7)
  {
    ResponseIff(G, r7, b3, c(8), d7);
  }
}
