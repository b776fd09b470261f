/**
 * Wesolowski's proofs of exponentiation (rsa/src/poe/mod.rs) over the group of hidden order, with the challenge
 * prime and its certificate from the nonce search.
 */
module ExponentiationProofs {
  import opened Arithmetic
  import opened Outcomes
  import opened Primes
  import opened MillerRabin
  import opened Pocklington
  import opened CertificateGeneration
  import opened HiddenOrder

  /**
   * The group's modulus, the candidate for a challenge that base, claimed power, time and nonce hash to, the limits
   * of the nonce search, the factoring oracle, and the first primes.
   */
  datatype Setting = Setting(
    m: int,
    candidate: (int, int, nat, nat) -> int,
    nonceSize: nat,
    maxSteps: nat,
    factor: int -> seq<Factor>,
    bases: seq<int>)

  ghost predicate Lawful(s: Setting)
  {
    s.m > 0 && Factors(s.factor) && FirstPrimes(s.bases) && |s.bases| == ROUNDS
  }

  datatype Proof = Proof(q: int, l: int, certs: seq<StepCert>, nonce: nat)

  /** The search for the challenge that base, claimed power and time hash to. */
  function FindChallenge(s: Setting, u: int, v: int, t: nat): (r: SearchResult)
    requires Lawful(s)
    ensures r.Found? ==> r.p > 1
  {
    PowPositive(2, s.nonceSize);
    SearchOutcome((nonce: nat) => s.candidate(u, v, t, nonce), Pow(2, s.nonceSize), s.maxSteps, s.factor, s.bases, 0);
    Search((nonce: nat) => s.candidate(u, v, t, nonce), Pow(2, s.nonceSize), s.maxSteps, s.factor, s.bases, 0)
  }

  /** `2^t`, the time parameter being cut to 32 bits where it becomes an exponent. */
  function Exponent(t: nat): (e: nat)
    ensures t < 0x1_0000_0000 ==> e == TwoTo(t)
  {
    TwoTo(t % 0x1_0000_0000)
  }

  /** How often the challenge goes into the exponent. */
  function Times(e: nat, l: int): nat
    requires l > 0
  {
    Division(e, l);
    e / l
  }

  function Prove(s: Setting, u: int, v: int, t: nat): Reply<Proof>
    requires Lawful(s)
  {
    match FindChallenge(s, u, v, t)
    case Stopped => Reply.Stopped
    case NoValidNonce => Refused
    case Found(l, certs, nonce) => Accepted(Proof(Power(s.m, u, Times(Exponent(t), l)), l, certs, nonce))
  }

  /** Whoever knows the group order reduces the exponent; a time of 2^32 or more stops this prover. */
  function ProveCheating(s: Setting, u: int, v: int, t: nat, order: int): Reply<Proof>
    requires Lawful(s) && order > 0
  {
    match FindChallenge(s, u, v, t)
    case Stopped => Reply.Stopped
    case NoValidNonce => Refused
    case Found(l, certs, nonce) =>
      if t >= 0x1_0000_0000 then Reply.Stopped
      else Accepted(Proof(Power(s.m, u, Times(Exponent(t), l) % order), l, certs, nonce))
  }

  /** A zero challenge stops the program, as does a negative one that the hash confirms. */
  function Verify(s: Setting, u: int, v: int, t: nat, f: Proof): Outcome<bool>
    requires s.m > 0
  {
    match VerifyHashToPrime(s.candidate(u, v, t, f.nonce), f.l, f.certs)
    case Panic => Panic
    case Done(confirmed) =>
      if f.l == 0 then Panic
      else if !confirmed then Done(false)
      else if f.l < 0 then Panic
      else Done(v == Op(s.m, Power(s.m, f.q, f.l), Power(s.m, u, ModPow(2, t, f.l))))
  }

  // -------------------------------------------------------------- what is found

  /** The verifier confirms the challenge that the search returned exactly when its certificate is short enough. */
  lemma FoundConfirmed(s: Setting, u: int, v: int, t: nat)
    requires Lawful(s) && FindChallenge(s, u, v, t).Found?
    ensures var r := FindChallenge(s, u, v, t);
      r.p > 1 && VerifyHashToPrime(s.candidate(u, v, t, r.nonce), r.p, r.certs) == Done(ShortEnough(r.p, r.certs))
  {
    hide VerifyHashToPrime, ShortEnough, FirstPrimes, Factors, Search, Pow;
    PowPositive(2, s.nonceSize);
    SearchVerdict((nonce: nat) => s.candidate(u, v, t, nonce), Pow(2, s.nonceSize), s.maxSteps, s.factor, s.bases);
  }

  /** The exponent that the verifier of an honest proof reassembles; it is the prover's own unless the time was cut. */
  function Reassembled(t: nat, l: int): nat
    requires l > 0
  {
    var e := Exponent(t);
    MulPositive(Times(e, l), l);
    Times(e, l) * l + ModPow(2, t, l)
  }

  lemma ReassembledIs(t: nat, l: int)
    requires l > 0
    ensures t < 0x1_0000_0000 ==> Reassembled(t, l) == TwoTo(t)
  {
    Division(Exponent(t), l);
    assert Times(Exponent(t), l) * l == l * Times(Exponent(t), l);
  }

  /**
   * The exact verdict on an honestly computed proof of any claim: the certificate of the challenge is short enough
   * for the verifier, and the claimed power is the reassembled one.
   */
  lemma HonestProofVerdict(s: Setting, u: int, v: int, t: nat)
    requires Lawful(s) && Prove(s, u, v, t).Accepted?
    ensures var f := Prove(s, u, v, t).value;
      f.l > 0 && Verify(s, u, v, t, f) == Done(ShortEnough(f.l, f.certs) && v == Power(s.m, u, Reassembled(t, f.l)))
  {
    var f := Prove(s, u, v, t).value;
    FoundConfirmed(s, u, v, t);
    hide VerifyHashToPrime, ShortEnough, Power, Op, Pow, FindChallenge, Times, Exponent, Lawful;
    PowerPower(s.m, u, Times(Exponent(t), f.l), f.l);
    PowerSum(s.m, u, Times(Exponent(t), f.l) * f.l, ModPow(2, t, f.l));
  }

  /** For times below 2^32: true claims are accepted exactly with a short certificate, false ones never. */
  lemma TrueClaimVerdict(s: Setting, u: int, v: int, t: nat)
    requires Lawful(s) && Prove(s, u, v, t).Accepted? && t < 0x1_0000_0000
    ensures var f := Prove(s, u, v, t).value;
      Verify(s, u, v, t, f) == Done(ShortEnough(f.l, f.certs) && v == Power(s.m, u, TwoTo(t)))
  {
    HonestProofVerdict(s, u, v, t);
    ReassembledIs(t, Prove(s, u, v, t).value.l);
  }

  // ------------------------------------------------------------- the trapdoor

  /** An order-holder's proof is the honest proof itself, if the order is one of the base. */
  lemma CheatingProofSame(s: Setting, u: int, v: int, t: nat, order: int)
    requires Lawful(s) && Kills(s.m, u, order) && t < 0x1_0000_0000
    ensures ProveCheating(s, u, v, t, order) == Prove(s, u, v, t)
  {
    var r := FindChallenge(s, u, v, t);
    if r.Found? {
      hide FindChallenge, Power, Exponent, Times;
      ReducedExponent(s.m, u, order, Times(Exponent(t), r.p));
    }
  }

  // ------------------------------------------------------------------ soundness

  predicate Inverses(m: int, x: int, y: int)
    requires m > 0
  {
    Cong(x * y, 1, m)
  }

  /** `v` is `w^l` times what it should be. */
  predicate OffByRoot(s: Setting, u: int, v: int, t: nat, l: int, w: int)
    requires s.m > 0 && l > 0
  {
    v == Op(s.m, Power(s.m, w, l), Power(s.m, u, TwoTo(t)))
  }

  /**
   * An accepted proof about an invertible base hands over an `l`-th root of the quotient of the claimed power by the
   * true one, for the hashed prime `l`: short of finding such roots, only true claims have proofs.
   */
  lemma AcceptedGivesRoot(s: Setting, u: int, v: int, t: nat, f: Proof, inverse: int) returns (w: int)
    requires s.m > 0 && Inverses(s.m, u, inverse) && Verify(s, u, v, t, f) == Done(true)
    requires BaseCheck(Terminal(f.l, f.certs)) == Done(true) ==> Prime(Terminal(f.l, f.certs))
    ensures Prime(f.l) && f.l == s.candidate(u, v, t, f.nonce) && f.l > 0
    ensures OffByRoot(s, u, v, t, f.l, w)
  {
    AcceptedIsPrime(s.candidate(u, v, t, f.nonce), f.l, f.certs);
    var d := Times(TwoTo(t), f.l);
    w := f.q * Pow(inverse, d);
    hide VerifyHashToPrime, Prime, BaseCheck, Terminal;
    assert v == Op(s.m, Power(s.m, f.q, f.l), Power(s.m, u, ModPow(2, t, f.l)));
    RootTimesPower(s, u, inverse, f.q, d, f.l, TwoTo(t));
  }

  /** Conversely whoever has such a root has an accepted proof for any confirmed challenge. */
  lemma RootGivesProof(s: Setting, u: int, v: int, t: nat, l: int, certs: seq<StepCert>, nonce: nat, w: int) returns (f: Proof)
    requires s.m > 0 && l > 0 && VerifyHashToPrime(s.candidate(u, v, t, nonce), l, certs) == Done(true)
    requires OffByRoot(s, u, v, t, l, w)
    ensures f.l == l && f.certs == certs && Verify(s, u, v, t, f) == Done(true)
  {
    hide VerifyHashToPrime;
    var d := Times(TwoTo(t), l);
    f := Proof(w * Pow(u, d), l, certs, nonce);
    RootSplit(s, u, w, d, l, TwoTo(t));
  }

  lemma RootSplit(s: Setting, u: int, w: int, d: nat, l: int, e: nat)
    requires s.m > 0 && l > 0 && d == Times(e, l)
    ensures e % l >= 0
    ensures Op(s.m, Power(s.m, w * Pow(u, d), l), Power(s.m, u, e % l)) == Op(s.m, Power(s.m, w, l), Power(s.m, u, e))
  {
    hide *;
    Division(e, l);
    TimesIs(e, l);
    PowOfProduct(w, Pow(u, d), l);
    PowMul(u, d, l);
    OpOfPowers(s.m, w * Pow(u, d), l, u, e % l);
    OpOfPowers(s.m, w, l, u, e);
    SplitPower(u, d, l, e);
    Assoc(Pow(w, l), Pow(Pow(u, d), l), Pow(u, e % l));
  }

  lemma TimesIs(e: nat, l: int)
    requires l > 0
    ensures Times(e, l) == e / l
  {
  }

  lemma Assoc(a: int, b: int, c: int)
    ensures (a * b) * c == a * (b * c)
  {
  }

  lemma SplitPower(u: int, d: nat, l: nat, e: nat)
    requires l > 0 && d == e / l && e % l >= 0
    ensures Pow(Pow(u, d), l) * Pow(u, e % l) == Pow(u, e)
  {
    hide Pow;
    Division(e, l);
    MulPositive(d, l);
    PowMul(u, d, l);
    assert d * l + e % l == e by { assert d * l == l * d; }
    PowAdd(u, d * l, e % l);
  }

  lemma {:induction false} PowOfProduct(a: int, b: int, e: nat)
    ensures Pow(a * b, e) == Pow(a, e) * Pow(b, e)
  {
    if e > 0 {
      PowOfProduct(a, b, e - 1);
      Interchange(a, b, Pow(a, e - 1), Pow(b, e - 1));
    }
  }

  lemma Interchange(a: int, b: int, c: int, d: int)
    ensures (a * b) * (c * d) == (a * c) * (b * d)
  {
  }

  /** Products of powers are canonical elements of products of integers. */
  lemma OpOfPowers(m: int, a: int, x: nat, b: int, y: nat)
    requires m > 0
    ensures Op(m, Power(m, a, x), Power(m, b, y)) == Canon(m, (Pow(a, x) * Pow(b, y)) % m)
  {
    hide UpToSign, Pow;
    var p, q := Power(m, a, x), Power(m, b, y);
    CanonRepresents(m, Pow(a, x));
    CanonRepresents(m, Pow(b, y));
    ProductUpToSign(m, p, Pow(a, x), q, Pow(b, y));
    MulPositive(p, q);
    CanonDecides(m, p * q, Pow(a, x) * Pow(b, y));
  }

  /** Dividing the proof element by the true quotient power leaves the root. */
  lemma RootTimesPower(s: Setting, u: int, inverse: int, q: int, d: nat, l: int, e: nat)
    requires s.m > 0 && l > 0 && d == Times(e, l) && Inverses(s.m, u, inverse)
    ensures e % l >= 0
    ensures Op(s.m, Power(s.m, q, l), Power(s.m, u, e % l)) == Op(s.m, Power(s.m, q * Pow(inverse, d), l), Power(s.m, u, e))
  {
    hide *;
    Division(e, l);
    RootSplit(s, u, q * Pow(inverse, d), d, l, e);
    OpOfPowers(s.m, q, l, u, e % l);
    OpOfPowers(s.m, (q * Pow(inverse, d)) * Pow(u, d), l, u, e % l);
    Cancelled(s.m, q, u, inverse, d);
    CongPow((q * Pow(inverse, d)) * Pow(u, d), q, l, s.m);
    CongMul(Pow((q * Pow(inverse, d)) * Pow(u, d), l), Pow(q, l), Pow(u, e % l), Pow(u, e % l), s.m) by { Reflexive(Pow(u, e % l), s.m); }
    SameResidue(Pow((q * Pow(inverse, d)) * Pow(u, d), l) * Pow(u, e % l), Pow(q, l) * Pow(u, e % l), s.m);
  }

  lemma Reflexive(a: int, m: int)
    requires m > 0
    ensures Cong(a, a, m)
  {
  }

  lemma SameResidue(a: int, b: int, m: int)
    requires m > 0 && Cong(a, b, m)
    ensures a % m == b % m
  {
  }

  lemma Cancelled(m: int, q: int, u: int, inverse: int, d: nat)
    requires m > 0 && Inverses(m, u, inverse)
    ensures Cong((q * Pow(inverse, d)) * Pow(u, d), q, m)
  {
    hide Pow;
    PowOfProduct(u, inverse, d);
    CongPow(u * inverse, 1, d, m);
    PowOne(d);
    var x, y := Pow(inverse, d), Pow(u, d);
    Assoc(q, x, y);
    assert x * y == y * x;
    CongScale(q, y * x, 1, m);
  }
}
