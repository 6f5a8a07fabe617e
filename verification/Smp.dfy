/**
 * The Socialist Millionaires Protocol of otr/smp.go: two parties find out whether their secrets are
 * equal. The group is abstract here; SmpGroup gives the one of the code. The hash is a parameter, and
 * so is every random number, in the order in which the code draws them.
 */
module Smp {
  import opened Modular

  /** A group of order q written multiplicatively, with the operations that the code uses. */
  datatype Group = Group(q: nat, g: nat, mul: (nat, nat) -> nat, exp: (nat, nat) -> nat, inv: nat -> nat)

  /** A hash of a magic number and some group elements. */
  type Hash = (nat, seq<nat>) -> nat

  type Powers = int -> nat

  /** Names the exponents at which a law is used; it is always true. */
  predicate At(a: int, b: int) {
    true
  }

  /** el(e) is the generator to the power e, and the operations of the group agree with that. */
  ghost predicate Laws(G: Group, el: Powers) {
    && G.q > 0
    && G.g == el(1)
    && (forall a, b {:trigger At(a, b)} :: G.mul(el(a), el(b)) == el(a + b))
    && (forall a, n: nat {:trigger At(a, n)} :: G.exp(el(a), n) == el(a * n))
    && (forall a {:trigger At(a, 0)} :: G.inv(el(a)) == el(-a))
    && (forall a, b {:trigger At(a, b)} :: el(a * (b % G.q)) == el(a * b))
  }

  lemma MulLaw(G: Group, el: Powers, a: int, b: int)
    requires Laws(G, el)
    ensures G.mul(el(a), el(b)) == el(a + b)
  {
    assert At(a, b);
  }

  lemma ExpLaw(G: Group, el: Powers, a: int, n: nat)
    requires Laws(G, el)
    ensures G.exp(el(a), n) == el(a * n)
  {
    assert At(a, n);
  }

  lemma InvLaw(G: Group, el: Powers, a: int)
    requires Laws(G, el)
    ensures G.inv(el(a)) == el(-a)
  {
    assert At(a, 0);
  }

  /** A response stands for r - a*c in every exponent. */
  lemma ResponseLaw(G: Group, el: Powers, e: int, r: nat, a: nat, c: nat)
    requires Laws(G, el)
    ensures G.exp(el(e), Response(G, r, a, c)) == el(e * (r - a * c))
  {
    assert At(e, r - a * c);
    ExpLaw(G, el, e, Response(G, r, a, c));
  }

  /** The product that a verifier forms from a response gives back the commitment. */
  lemma Answered(G: Group, el: Powers, e: int, r: nat, a: nat, c: nat)
    requires Laws(G, el)
    ensures G.mul(G.exp(el(e), Response(G, r, a, c)), G.exp(el(e * a), c)) == el(e * r)
  {
    ResponseLaw(G, el, e, r, a, c);
    ExpLaw(G, el, e * a, c);
    MulLaw(G, el, e * (r - a * c), e * a * c);
    Gather(e, r, a, c);
  }

  lemma Gather(e: int, r: int, a: int, c: int)
    ensures e * (r - a * c) + e * a * c == e * r
  {
  }

  /** Two powers of the generator are equal exactly when the exponents are congruent modulo q. */
  ghost predicate Faithful(G: Group, el: Powers) {
    Prime(G.q) && forall a, b {:trigger At(a, b)} :: el(a) == el(b) <==> (a - b) % G.q == 0
  }

  /** The answer to challenge c from someone who knows a and committed to r. */
  function Response(G: Group, r: nat, a: nat, c: nat): nat {
    if G.q == 0 then 0 else (r - a * c) % G.q
  }

  // ---------------------------------------------------------------- the three kinds of proof

  /** Knowledge of the exponent of public. */
  predicate Knows(G: Group, H: Hash, magic: nat, public: nat, c: nat, d: nat) {
    c == H(magic, [G.mul(G.exp(G.g, d), G.exp(public, c))])
  }

  /** Knowledge of the exponents that make up P and Q. */
  predicate Coordinates(G: Group, H: Hash, magic: nat, g2: nat, g3: nat, P: nat, Q: nat, c: nat, d5: nat, d6: nat) {
    c == H(magic, [G.mul(G.exp(g3, d5), G.exp(P, c)),
                   G.mul(G.mul(G.exp(G.g, d5), G.exp(g2, d6)), G.exp(Q, c))])
  }

  /** R is the same power of quotient as public is of the generator. */
  predicate SamePower(G: Group, H: Hash, magic: nat, public: nat, quotient: nat, R: nat, c: nat, d7: nat) {
    c == H(magic, [G.mul(G.exp(G.g, d7), G.exp(public, c)), G.mul(G.exp(quotient, d7), G.exp(R, c))])
  }

  lemma KnowsHonest(G: Group, H: Hash, el: Powers, magic: nat, a: nat, r: nat)
    requires Laws(G, el)
    ensures var c := H(magic, [G.exp(G.g, r)]); Knows(G, H, magic, G.exp(G.g, a), c, Response(G, r, a, c))
  {
    var c := H(magic, [G.exp(G.g, r)]);
    Answered(G, el, 1, r, a, c);
    ExpLaw(G, el, 1, a);
    ExpLaw(G, el, 1, r);
  }

  lemma SamePowerHonest(G: Group, H: Hash, el: Powers, magic: nat, t: int, a: nat, r: nat)
    requires Laws(G, el)
    ensures var c := H(magic, [G.exp(G.g, r), G.exp(el(t), r)]);
            SamePower(G, H, magic, G.exp(G.g, a), el(t), G.exp(el(t), a), c, Response(G, r, a, c))
  {
    var c := H(magic, [G.exp(G.g, r), G.exp(el(t), r)]);
    Answered(G, el, 1, r, a, c);
    ExpLaw(G, el, 1, a);
    ExpLaw(G, el, 1, r);
    Answered(G, el, t, r, a, c);
    ExpLaw(G, el, t, a);
    ExpLaw(G, el, t, r);
  }

  lemma CoordinatesHonest(G: Group, H: Hash, el: Powers, magic: nat, e2: int, e3: int, secret: nat, r4: nat, r5: nat,
      r6: nat)
    requires Laws(G, el)
    ensures var g2, g3 := el(e2), el(e3);
            var c := H(magic, [G.exp(g3, r5), G.mul(G.exp(G.g, r5), G.exp(g2, r6))]);
            Coordinates(G, H, magic, g2, g3, G.exp(g3, r4), G.mul(G.exp(G.g, r4), G.exp(g2, secret)),
                        c, Response(G, r5, r4, c), Response(G, r6, secret, c))
  {
    var g2, g3 := el(e2), el(e3);
    var c := H(magic, [G.exp(g3, r5), G.mul(G.exp(G.g, r5), G.exp(g2, r6))]);
    Answered(G, el, e3, r5, r4, c);
    ExpLaw(G, el, e3, r4);
    ExpLaw(G, el, e3, r5);
    BlindedAnswer(G, el, e2, secret, r4, r5, r6, c);
  }

  lemma BlindedAnswer(G: Group, el: Powers, e2: int, secret: nat, r4: nat, r5: nat, r6: nat, c: nat)
    requires Laws(G, el)
    ensures G.mul(G.mul(G.exp(G.g, Response(G, r5, r4, c)), G.exp(el(e2), Response(G, r6, secret, c))),
                  G.exp(G.mul(G.exp(G.g, r4), G.exp(el(e2), secret)), c)) ==
            G.mul(G.exp(G.g, r5), G.exp(el(e2), r6))
  {
    ResponseLaw(G, el, 1, r5, r4, c);
    ResponseLaw(G, el, e2, r6, secret, c);
    Blinded(G, el, e2, r4, secret);
    Blinded(G, el, e2, r5, r6);
    ExpLaw(G, el, r4 + e2 * secret, c);
    var x, y, z := r5 - r4 * c, e2 * (r6 - secret * c), (r4 + e2 * secret) * c;
    MulLaw(G, el, x, y);
    MulLaw(G, el, x + y, z);
    Cancel(r5, r4, e2, r6, secret, c);
  }

  /** The second coordinate of a blinded secret. */
  lemma Blinded(G: Group, el: Powers, e2: int, r: nat, secret: nat)
    requires Laws(G, el)
    ensures G.mul(G.exp(G.g, r), G.exp(el(e2), secret)) == el(r + e2 * secret)
  {
    ExpLaw(G, el, 1, r);
    ExpLaw(G, el, e2, secret);
    MulLaw(G, el, r, e2 * secret);
  }

  lemma Cancel(r5: int, r4: int, e2: int, r6: int, secret: int, c: int)
    ensures r5 - r4 * c + e2 * (r6 - secret * c) + (r4 + e2 * secret) * c == r5 + e2 * r6
  {
  }

  // ---------------------------------------------------------------- the four messages

  datatype Draws1 = Draws1(a2: nat, a3: nat, r2: nat, r3: nat)
  datatype Draws2 = Draws2(b2: nat, b3: nat, r2: nat, r3: nat, r4: nat, r5: nat, r6: nat)
  datatype Draws3 = Draws3(r4: nat, r5: nat, r6: nat, r7: nat)

  function Smp1(G: Group, H: Hash, r: Draws1): seq<nat> {
    var c2, c3 := H(1, [G.exp(G.g, r.r2)]), H(2, [G.exp(G.g, r.r3)]);
    [G.exp(G.g, r.a2), c2, Response(G, r.r2, r.a2, c2), G.exp(G.g, r.a3), c3, Response(G, r.r3, r.a3, c3)]
  }

  predicate Accepts1(G: Group, H: Hash, m: seq<nat>) {
    |m| == 6 && Knows(G, H, 1, m[0], m[1], m[2]) && Knows(G, H, 2, m[3], m[4], m[5])
  }

  /** What the answering party keeps: the shared generators and its blinded secret. */
  datatype Held = Held(g2: nat, g3: nat, pb: nat, qb: nat)

  function Hold(G: Group, g2a: nat, g3a: nat, secret: nat, r: Draws2): Held {
    var g2, g3 := G.exp(g2a, r.b2), G.exp(g3a, r.b3);
    Held(g2, g3, G.exp(g3, r.r4), G.mul(G.exp(G.g, r.r4), G.exp(g2, secret)))
  }

  function Smp2(G: Group, H: Hash, k: Held, secret: nat, r: Draws2): seq<nat> {
    var c2, c3 := H(3, [G.exp(G.g, r.r2)]), H(4, [G.exp(G.g, r.r3)]);
    var cp := H(5, [G.exp(k.g3, r.r5), G.mul(G.exp(G.g, r.r5), G.exp(k.g2, r.r6))]);
    [G.exp(G.g, r.b2), c2, Response(G, r.r2, r.b2, c2), G.exp(G.g, r.b3), c3, Response(G, r.r3, r.b3, c3),
     k.pb, k.qb, cp, Response(G, r.r5, r.r4, cp), Response(G, r.r6, secret, cp)]
  }

  predicate Accepts2(G: Group, H: Hash, a2: nat, a3: nat, m: seq<nat>) {
    && |m| == 11
    && Knows(G, H, 3, m[0], m[1], m[2])
    && Knows(G, H, 4, m[3], m[4], m[5])
    && Coordinates(G, H, 5, G.exp(m[0], a2), G.exp(m[3], a3), m[6], m[7], m[8], m[9], m[10])
  }

  function Quotient(G: Group, x: nat, y: nat): nat {
    G.mul(x, G.inv(y))
  }

  /** The starting party's blinded secret over the other one's. */
  datatype Compared = Compared(pa: nat, qa: nat, papb: nat, qaqb: nat)

  function Compare(G: Group, a2: nat, a3: nat, m: seq<nat>, secret: nat, r: Draws3): Compared
    requires |m| == 11
  {
    var g2, g3 := G.exp(m[0], a2), G.exp(m[3], a3);
    var pa, qa := G.exp(g3, r.r4), G.mul(G.exp(G.g, r.r4), G.exp(g2, secret));
    Compared(pa, qa, Quotient(G, pa, m[6]), Quotient(G, qa, m[7]))
  }

  function Smp3(G: Group, H: Hash, a2: nat, a3: nat, m: seq<nat>, secret: nat, r: Draws3): seq<nat>
    requires |m| == 11
  {
    var g2, g3 := G.exp(m[0], a2), G.exp(m[3], a3);
    var k := Compare(G, a2, a3, m, secret, r);
    var cp := H(6, [G.exp(g3, r.r5), G.mul(G.exp(G.g, r.r5), G.exp(g2, r.r6))]);
    var cr := H(7, [G.exp(G.g, r.r7), G.exp(k.qaqb, r.r7)]);
    [k.pa, k.qa, cp, Response(G, r.r5, r.r4, cp), Response(G, r.r6, secret, cp),
     G.exp(k.qaqb, a3), cr, Response(G, r.r7, a3, cr)]
  }

  predicate Accepts3(G: Group, H: Hash, k: Held, g3a: nat, m: seq<nat>) {
    && |m| == 8
    && Coordinates(G, H, 6, k.g2, k.g3, m[0], m[1], m[2], m[3], m[4])
    && SamePower(G, H, 7, g3a, Quotient(G, m[1], k.qb), m[5], m[6], m[7])
  }

  predicate Matches3(G: Group, k: Held, b3: nat, m: seq<nat>)
    requires |m| == 8
  {
    Quotient(G, m[0], k.pb) == G.exp(m[5], b3)
  }

  function Smp4(G: Group, H: Hash, k: Held, b3: nat, m: seq<nat>, r7: nat): seq<nat>
    requires |m| == 8
  {
    var qaqb := Quotient(G, m[1], k.qb);
    var cr := H(8, [G.exp(G.g, r7), G.exp(qaqb, r7)]);
    [G.exp(qaqb, b3), cr, Response(G, r7, b3, cr)]
  }

  predicate Accepts4(G: Group, H: Hash, g3b: nat, qaqb: nat, m: seq<nat>) {
    |m| == 3 && SamePower(G, H, 8, g3b, qaqb, m[0], m[1], m[2])
  }

  predicate Matches4(G: Group, a3: nat, papb: nat, m: seq<nat>)
    requires |m| == 3
  {
    G.exp(m[0], a3) == papb
  }

  // ---------------------------------------------------------------- an honest run

  /** A run: what each side drew and the messages that resulted. */
  datatype Run = Run(x: nat, y: nat, one: Draws1, two: Draws2, three: Draws3, last: nat)

  function RunHeld(G: Group, H: Hash, r: Run): Held {
    var m := Smp1(G, H, r.one);
    Hold(G, m[0], m[3], r.y, r.two)
  }

  function Run2(G: Group, H: Hash, r: Run): (m: seq<nat>)
    ensures |m| == 11
  {
    Smp2(G, H, RunHeld(G, H, r), r.y, r.two)
  }

  function RunCompared(G: Group, H: Hash, r: Run): Compared {
    Compare(G, r.one.a2, r.one.a3, Run2(G, H, r), r.x, r.three)
  }

  function Run3(G: Group, H: Hash, r: Run): (m: seq<nat>)
    ensures |m| == 8
  {
    Smp3(G, H, r.one.a2, r.one.a3, Run2(G, H, r), r.x, r.three)
  }

  function Run4(G: Group, H: Hash, r: Run): (m: seq<nat>)
    ensures |m| == 3
  {
    Smp4(G, H, RunHeld(G, H, r), r.two.b3, Run3(G, H, r), r.last)
  }

  /** The exponents of the shared generators and of the quotient of the two second coordinates. */
  function E2(r: Run): nat {
    r.one.a2 * r.two.b2
  }

  function E3(r: Run): nat {
    r.one.a3 * r.two.b3
  }

  function Difference(r: Run): int {
    (r.three.r4 + E2(r) * r.x) - (r.two.r4 + E2(r) * r.y)
  }

  lemma HeldExponents(G: Group, H: Hash, el: Powers, r: Run)
    requires Laws(G, el)
    ensures var k := RunHeld(G, H, r);
            k.g2 == el(E2(r)) && k.g3 == el(E3(r)) && k.pb == el(E3(r) * r.two.r4) && k.qb == el(r.two.r4 + E2(r) * r.y)
  {
    ExpLaw(G, el, 1, r.one.a2);
    ExpLaw(G, el, r.one.a2, r.two.b2);
    ExpLaw(G, el, 1, r.one.a3);
    ExpLaw(G, el, r.one.a3, r.two.b3);
    ExpLaw(G, el, E3(r), r.two.r4);
    Blinded(G, el, E2(r), r.two.r4, r.y);
  }

  /** Both sides arrive at the same generators. */
  lemma SharedGenerators(G: Group, H: Hash, el: Powers, r: Run)
    requires Laws(G, el)
    ensures var m := Run2(G, H, r);
            G.exp(m[0], r.one.a2) == el(E2(r)) && G.exp(m[3], r.one.a3) == el(E3(r))
  {
    ExpLaw(G, el, 1, r.two.b2);
    ExpLaw(G, el, r.two.b2, r.one.a2);
    ExpLaw(G, el, 1, r.two.b3);
    ExpLaw(G, el, r.two.b3, r.one.a3);
  }

  lemma ComparedExponents(G: Group, H: Hash, el: Powers, r: Run)
    requires Laws(G, el)
    ensures var k := RunCompared(G, H, r);
            && k.pa == el(E3(r) * r.three.r4) && k.qa == el(r.three.r4 + E2(r) * r.x)
            && k.papb == el(E3(r) * r.three.r4 - E3(r) * r.two.r4) && k.qaqb == el(Difference(r))
  {
    HeldExponents(G, H, el, r);
    SharedGenerators(G, H, el, r);
    ExpLaw(G, el, E3(r), r.three.r4);
    Blinded(G, el, E2(r), r.three.r4, r.x);
    InvLaw(G, el, E3(r) * r.two.r4);
    MulLaw(G, el, E3(r) * r.three.r4, -(E3(r) * r.two.r4));
    InvLaw(G, el, r.two.r4 + E2(r) * r.y);
    MulLaw(G, el, r.three.r4 + E2(r) * r.x, -(r.two.r4 + E2(r) * r.y));
  }

  lemma FirstTwoAccepted(G: Group, H: Hash, el: Powers, r: Run)
    requires Laws(G, el)
    ensures Accepts1(G, H, Smp1(G, H, r.one)) && Accepts2(G, H, r.one.a2, r.one.a3, Run2(G, H, r))
  {
    KnowsHonest(G, H, el, 1, r.one.a2, r.one.r2);
    KnowsHonest(G, H, el, 2, r.one.a3, r.one.r3);
    KnowsHonest(G, H, el, 3, r.two.b2, r.two.r2);
    KnowsHonest(G, H, el, 4, r.two.b3, r.two.r3);
    HeldExponents(G, H, el, r);
    SharedGenerators(G, H, el, r);
    CoordinatesHonest(G, H, el, 5, E2(r), E3(r), r.y, r.two.r4, r.two.r5, r.two.r6);
  }

  lemma ThirdAccepted(G: Group, H: Hash, el: Powers, r: Run)
    requires Laws(G, el)
    ensures Accepts3(G, H, RunHeld(G, H, r), Smp1(G, H, r.one)[3], Run3(G, H, r))
  {
    HeldExponents(G, H, el, r);
    SharedGenerators(G, H, el, r);
    ComparedExponents(G, H, el, r);
    CoordinatesHonest(G, H, el, 6, E2(r), E3(r), r.x, r.three.r4, r.three.r5, r.three.r6);
    SamePowerHonest(G, H, el, 7, Difference(r), r.one.a3, r.three.r7);
  }

  lemma FourthAccepted(G: Group, H: Hash, el: Powers, r: Run)
    requires Laws(G, el)
    ensures Accepts4(G, H, Run2(G, H, r)[3], RunCompared(G, H, r).qaqb, Run4(G, H, r))
  {
    ComparedExponents(G, H, el, r);
    SamePowerHonest(G, H, el, 8, Difference(r), r.two.b3, r.last);
  }

  /** Both comparisons compare the same two powers of the generator. */
  lemma ComparisonExponents(G: Group, H: Hash, el: Powers, r: Run)
    requires Laws(G, el)
    ensures var left, right := el(E3(r) * r.three.r4 - E3(r) * r.two.r4), el(Difference(r) * r.one.a3 * r.two.b3);
            && Matches3(G, RunHeld(G, H, r), r.two.b3, Run3(G, H, r)) == (left == right)
            && Matches4(G, r.one.a3, RunCompared(G, H, r).papb, Run4(G, H, r)) == (left == right)
  {
    HeldExponents(G, H, el, r);
    ComparedExponents(G, H, el, r);
    var t, a3, b3 := Difference(r), r.one.a3, r.two.b3;
    ExpLaw(G, el, t, a3);
    ExpLaw(G, el, t * a3, b3);
    ExpLaw(G, el, t, b3);
    ExpLaw(G, el, t * b3, a3);
    Rotate(t, a3, b3);
    var k, m := RunHeld(G, H, r), Run3(G, H, r);
    assert Quotient(G, m[0], k.pb) == RunCompared(G, H, r).papb;
  }

  /** One of the two shared generators is the neutral element. */
  predicate Degenerate(q: nat, r: Run)
    requires q > 0
  {
    r.one.a2 % q == 0 || r.one.a3 % q == 0 || r.two.b2 % q == 0 || r.two.b3 % q == 0
  }

  /** When the comparisons of a run succeed. */
  predicate Agrees(q: nat, r: Run)
    requires q > 0
  {
    Degenerate(q, r) || r.x % q == r.y % q
  }

  lemma SecretsDecide(q: nat, r: Run)
    requires Prime(q)
    ensures (E3(r) * r.three.r4 - E3(r) * r.two.r4 - Difference(r) * r.one.a3 * r.two.b3) % q == 0 <==> Agrees(q, r)
  {
    var e2, e3, d := E2(r), E3(r), r.y - r.x;
    Factor(r.one.a3, r.two.b3, e2, r.three.r4, r.two.r4, r.x, r.y);
    PrimeDivides(q, r.one.a2, r.two.b2);
    PrimeDivides(q, r.one.a3, r.two.b3);
    PrimeDivides(q, e3, e2 * d);
    PrimeDivides(q, e2, d);
    ModEqual(r.y, r.x, q);
  }

  lemma Factor(a3: int, b3: int, e2: int, s: int, t: int, x: int, y: int)
    ensures a3 * b3 * s - a3 * b3 * t - ((s + e2 * x) - (t + e2 * y)) * a3 * b3 == a3 * b3 * (e2 * (y - x))
  {
    assert ((s + e2 * x) - (t + e2 * y)) * a3 * b3 == a3 * b3 * ((s - t) + e2 * (x - y));
  }

  /**
   * In an honest run every zero-knowledge check passes, and both final comparisons succeed exactly when
   * the secrets are congruent modulo the group order or one of the four blinding exponents is a multiple
   * of it, which no check of the code notices.
   */
  lemma HonestRun(G: Group, H: Hash, el: Powers, r: Run)
    requires Laws(G, el) && Faithful(G, el)
    ensures Accepts1(G, H, Smp1(G, H, r.one)) && Accepts2(G, H, r.one.a2, r.one.a3, Run2(G, H, r))
    ensures Accepts3(G, H, RunHeld(G, H, r), Smp1(G, H, r.one)[3], Run3(G, H, r))
    ensures Accepts4(G, H, Run2(G, H, r)[3], RunCompared(G, H, r).qaqb, Run4(G, H, r))
    ensures Matches3(G, RunHeld(G, H, r), r.two.b3, Run3(G, H, r)) <==> Agrees(G.q, r)
    ensures Matches4(G, r.one.a3, RunCompared(G, H, r).papb, Run4(G, H, r)) <==> Agrees(G.q, r)
  {
    FirstTwoAccepted(G, H, el, r);
    ThirdAccepted(G, H, el, r);
    FourthAccepted(G, H, el, r);
    ComparisonExponents(G, H, el, r);
    SecretsDecide(G.q, r);
    assert At(E3(r) * r.three.r4 - E3(r) * r.two.r4, Difference(r) * r.one.a3 * r.two.b3);
  }
}
