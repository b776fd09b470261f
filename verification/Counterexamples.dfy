/** Concrete inputs at which the code does not do what is promised of it; the exact conditions are proved beside the code. */
module Counterexamples {
  import opened Arithmetic
  import opened Outcomes
  import opened Primes
  import opened MillerRabin
  import opened Pocklington
  import opened CertificateGeneration
  import opened Bytes
  import opened HiddenOrder
  import opened ExponentiationProofs
  import opened TimedCommitments

  // ------------------------------------------------ a prime without a certificate

  /** Every requirement on the certificate of the prime 79 holds but the square test, whose discriminant is -7. */
  lemma PrimeTurnedDown()
    ensures Prime(79)
    ensures var c := StepCert(3, 1, 1, 3, -2, 1);
      && StepFacts(79, c, 6, 13) && c.bu * 6 + c.bv * 13 == 1
      && Discriminant(6, 13) == -7 && VerifyStep(79, c) == Done(false)
  {
    hide ModPow, Prime, TestA, SquareTest;
    PrimeByTrial(79);
    BasePasses();
    SquareTestFails();
    assert Factored(3, 1, 1) == 6;
    assert (79 - 1) / 6 == 13 && Remainder(6, 13) == 1;
    assert SizeBound(6, 1) == 511;
  }

  lemma BasePasses()
    requires Prime(79)
    ensures TestA(79, 3, 3)
  {
    hide ModPow, NoCommonFactor, Prime;
    PowersOfThree();
    NothingInCommon(79, 22);
    NothingInCommon(79, 77);
  }

  lemma PowersOfThree()
    ensures ModPow(3, 78, 79) == 1 && ModPow(3, 26, 79) == 23 && ModPow(3, 39, 79) == 78
  {
    hide Pow, Cong;
    PowFirst(3, 79);
    PowTimes(3, 1, 3, 1, 3, 9, 79);
    PowTimes(3, 2, 9, 2, 9, 2, 79);
    PowTimes(3, 4, 2, 4, 2, 4, 79);
    PowTimes(3, 8, 4, 8, 4, 16, 79);
    PowTimes(3, 16, 16, 16, 16, 19, 79);
    PowTimes(3, 2, 9, 8, 4, 36, 79);
    PowTimes(3, 16, 16, 10, 36, 23, 79);
    PowTimes(3, 32, 19, 4, 2, 38, 79);
    PowTimes(3, 36, 38, 2, 9, 26, 79);
    PowTimes(3, 38, 26, 1, 3, 78, 79);
    PowTimes(3, 39, 78, 39, 78, 1, 79);
    ResidueOf(3, 78, 1, 79);
    ResidueOf(3, 26, 23, 79);
    ResidueOf(3, 39, 78, 79);
  }

  lemma ResidueOf(a: int, e: nat, x: int, m: int)
    requires 0 <= x < m && Cong(Pow(a, e), x, m)
    ensures ModPow(a, e, m) == x
  {
  }

  lemma NothingInCommon(p: int, x: int)
    requires Prime(p) && 0 < x < p
    ensures NoCommonFactor(x, p)
  {
    PrimeDivisors(p, ExtendedGcd(x, p).g);
    if ExtendedGcd(x, p).g == p {
      DivBound(p, x);
      assert false;
    }
  }

  lemma SquareTestFails()
    ensures Quotient(6, 13) == 1 && Discriminant(6, 13) == -7 && !SquareTest(6, 13)
  {
  }

  /** No number from `d` up to the square root of `n` divides it. */
  predicate Undivided(n: int, d: int)
    requires d > 0
    decreases n - d
  {
    d >= n || d * d > n || (n % d != 0 && Undivided(n, d + 1))
  }

  lemma PrimeByTrial(n: int)
    requires n >= 2 && Undivided(n, 2)
    ensures Prime(n)
  {
    if !Prime(n) {
      var q := PrimeFactor(n);
      if q != n {
        DivExact(q, n);
        DivBound(q, n);
        DivCofactor(q, n);
        var c := n / q;
        if c < q {
          SmallerSquare(c, q, n);
          UndividedBy(n, 2, c);
        } else {
          MulMonotone(q, c, q);
          assert c * q == q * c;
          UndividedBy(n, 2, q);
        }
      }
    }
  }

  lemma SmallerSquare(c: int, q: int, n: int)
    requires 0 < c < q && n == q * c
    ensures c * c <= n
  {
    MulMonotone(c, q, c);
  }

  lemma {:induction false} UndividedBy(n: int, from: int, d: int)
    requires 0 < from <= d < n && d * d <= n && Undivided(n, from)
    ensures n % d != 0
    decreases d - from
  {
    if from < d {
      MulMonotone(from, d, from);
      MulMonotone(from, d, d);
      assert from * d == d * from;
      UndividedBy(n, from + 1, d);
    }
  }

  // ------------------------------------------------------------- Proth's theorem

  lemma DivisorOfPower(g: int, n: nat)
    requires g > 0 && n >= 1 && Div(g, Pow(2, n))
    ensures g == Pow(2, n) || Div(g, Pow(2, n - 1))
  {
    var k := Pow(2, n) / g;
    DivExact(g, Pow(2, n));
    PowPositive(2, n);
    DivCofactor(g, Pow(2, n));
    if k % 2 == 0 {
      assert Pow(2, n) == 2 * Pow(2, n - 1);
      HalfProduct(g, k, Pow(2, n - 1));
      DivIntro(g, k / 2, Pow(2, n - 1));
    } else if k > 1 {
      var q := PrimeFactor(k);
      DivTrans(q, k, Pow(2, n));
      PrimeDividesPow(q, 2, n);
      TwoIsPrime();
      PrimeDividesPrime(q, 2);
      assert false;
    }
  }

  lemma HalfProduct(g: int, k: int, half: int)
    requires g * k == 2 * half && k % 2 == 0
    ensures half == g * (k / 2)
  {
    assert k == 2 * (k / 2);
  }

  /** A prime divisor of `p` exceeds `2^n` once some `2^(n-1)`-th power is -1 modulo `p`. */
  lemma LargeDivisor(p: int, b: int, n: nat, q: int)
    requires p > 2 && p % 2 == 1 && n >= 1 && Cong(Pow(b, PowNat(n - 1)), -1, p)
    requires Prime(q) && Div(q, p)
    ensures q > Pow(2, n)
  {
    var half := PowNat(n - 1);
    assert Pow(2, n) == 2 * half;
    assert q > 2 by {
      if q == 2 {
        assert false;
      }
    }
    CongDivisor(Pow(b, half), -1, q, p);
    NotDivided(b, half, q);
    PowAdd(b, half, half);
    CongMul(Pow(b, half), -1, Pow(b, half), -1, q);
    assert half + half == 2 * half;
    Fermat(b, q);
    var g := UnitExponents(b, 2 * half, q - 1, q);
    DivisorOfPower(g, n);
    if g != 2 * half {
      DivExact(g, half);
      UnitMultiple(b, g, half / g, q);
      OneIsNotMinusOne(Pow(b, half), q);
      assert false;
    }
    DivBound(g, q - 1);
  }

  function PowNat(n: nat): (r: nat)
    ensures r == Pow(2, n) && r > 0
  {
    PowPositive(2, n);
    Pow(2, n)
  }

  lemma NotDivided(b: int, e: nat, q: int)
    requires Prime(q) && e > 0 && Cong(Pow(b, e), -1, q)
    ensures !Div(q, b)
  {
    if Div(q, b) {
      DivMul(q, b, Pow(b, e - 1));
      CongDiff(Pow(b, e), -1, q);
      DivSum(q, Pow(b, e) + 1, Pow(b, e));
      DivBound(q, 1);
      assert false;
    }
  }

  lemma OneIsNotMinusOne(x: int, q: int)
    requires q > 2 && Cong(x, 1, q)
    ensures !Cong(x, -1, q)
  {
    assert 1 % q == 1;
    DivModUnique(-1, -1, q, q - 1);
  }

  /** Proth: `h * 2^n + 1` with `h < 2^n` is prime if some base raised to half of its predecessor is -1. */
  lemma Proth(p: int, h: nat, n: nat, a: int)
    requires n >= 1 && 0 < h < Pow(2, n) && p == h * Pow(2, n) + 1
    requires h * PowNat(n - 1) >= 0 && Cong(Pow(a, h * PowNat(n - 1)), -1, p)
    ensures Prime(p)
  {
    var t := PowNat(n);
    assert t == 2 * PowNat(n - 1);
    OddSuccessor(p, h, PowNat(n - 1));
    PowMul(a, h, PowNat(n - 1));
    var b := Pow(a, h);
    var q := PrimeFactor(p);
    if q != p {
      DivExact(q, p);
      DivBound(q, p);
      DivCofactor(q, p);
      var c := PrimeFactor(p / q);
      DivTrans(c, p / q, p);
      LargeDivisor(p, b, n, q);
      LargeDivisor(p, b, n, c);
      TooManyFactors(q, p / q, h, t);
      assert false;
    }
  }

  lemma OddSuccessor(p: int, h: nat, half: nat)
    requires h > 0 && half > 0 && p == h * (2 * half) + 1
    ensures p % 2 == 1 && p > 2
  {
    MulPositive(h, half);
    assert p == 2 * (h * half) + 1;
  }

  lemma TooManyFactors(q: int, c: int, h: nat, t: nat)
    requires q > t && c > t && h < t && h > 0
    ensures h * t + 1 < q * c
  {
    MulMonotone(t + 1, q, c);
    MulMonotone(t + 1, c, t + 1);
    MulMonotone(h, t, t);
    assert (t + 1) * (t + 1) == t * t + 2 * t + 1;
    assert c * (t + 1) == (t + 1) * c;
  }

  // ------------------------------------------------- a challenge the verifier refuses

  /** `3 * 2^30 + 1`, between the verifier's bound and the generator's. */
  const CHALLENGE: int := 3221225473

  function Thrice(n: nat): nat
  {
    3 * PowNat(n)
  }

  lemma Doubled(n: nat, x: int, y: int, m: int)
    requires m > 0 && Cong(Pow(5, Thrice(n)), x, m) && (x * x) % m == y
    ensures Cong(Pow(5, Thrice(n + 1)), y, m)
  {
    PowTimes(5, Thrice(n), x, Thrice(n), x, y, m);
    assert Thrice(n + 1) == Thrice(n) + Thrice(n);
  }

  lemma DoubledTo8(m: int)
    requires m == CHALLENGE && Cong(Pow(5, Thrice(0)), 125, m)
    ensures Cong(Pow(5, Thrice(8)), 3182672916, m)
  {
    hide Pow, Cong;
    Doubled(0, 125, 15625, m);
    Doubled(1, 15625, 244140625, m);
    Doubled(2, 244140625, 229807484, m);
    Doubled(3, 229807484, 247425463, m);
    Doubled(4, 247425463, 1838654099, m);
    Doubled(5, 1838654099, 538601489, m);
    Doubled(6, 538601489, 140749519, m);
    Doubled(7, 140749519, 3182672916, m);
  }

  lemma DoubledTo16(m: int)
    requires m == CHALLENGE && Cong(Pow(5, Thrice(8)), 3182672916, m)
    ensures Cong(Pow(5, Thrice(16)), 1445148504, m)
  {
    hide Pow, Cong;
    Doubled(8, 3182672916, 448192265, m);
    Doubled(9, 448192265, 3009749949, m);
    Doubled(10, 3009749949, 511777184, m);
    Doubled(11, 511777184, 1358427440, m);
    Doubled(12, 1358427440, 1800384970, m);
    Doubled(13, 1800384970, 2519378301, m);
    Doubled(14, 2519378301, 1405588668, m);
    Doubled(15, 1405588668, 1445148504, m);
  }

  lemma DoubledTo23(m: int)
    requires m == CHALLENGE && Cong(Pow(5, Thrice(16)), 1445148504, m)
    ensures Cong(Pow(5, Thrice(23)), 1292405718, m)
  {
    hide Pow, Cong;
    Doubled(16, 1445148504, 1734477367, m);
    Doubled(17, 1734477367, 211283056, m);
    Doubled(18, 211283056, 1168849724, m);
    Doubled(19, 1168849724, 1855261384, m);
    Doubled(20, 1855261384, 764652596, m);
    Doubled(21, 764652596, 1958494276, m);
    Doubled(22, 1958494276, 1292405718, m);
  }

  lemma DoubledTo29(m: int)
    requires m == CHALLENGE && Cong(Pow(5, Thrice(23)), 1292405718, m)
    ensures Cong(Pow(5, Thrice(29)), 3221225472, m)
  {
    hide Pow, Cong;
    Doubled(23, 1292405718, 651814490, m);
    Doubled(24, 651814490, 66931328, m);
    Doubled(25, 66931328, 2526611335, m);
    Doubled(26, 2526611335, 1031213943, m);
    Doubled(27, 1031213943, 1013946479, m);
    Doubled(28, 1013946479, 3221225472, m);
  }

  lemma ChallengeIsPrime()
    ensures Prime(CHALLENGE)
  {
    hide Prime, Cong;
    PowFirst(5, CHALLENGE);
    hide Pow;
    PowTimes(5, 1, 5, 1, 5, 25, CHALLENGE);
    PowTimes(5, 2, 25, 1, 5, 125, CHALLENGE);
    PowersOfTwo();
    assert Thrice(0) == 3;
    DoubledTo8(CHALLENGE);
    DoubledTo16(CHALLENGE);
    DoubledTo23(CHALLENGE);
    DoubledTo29(CHALLENGE);
    MinusOneResidue(Pow(5, Thrice(29)), CHALLENGE);
    Proth(CHALLENGE, 3, 30, 5);
  }

  lemma MinusOneResidue(x: int, m: int)
    requires m > 1 && Cong(x, m - 1, m)
    ensures Cong(x, -1, m)
  {
    DivModUnique(-1, -1, m, m - 1);
    DivModUnique(m - 1, 0, m, m - 1);
  }

  lemma PowersOfTwo()
    ensures Pow(2, 0) == 1 && Pow(2, 30) == 1073741824
  {
    assert Pow(2, 5) == 32;
    PowAdd(2, 5, 5);
    PowAdd(2, 10, 10);
    PowAdd(2, 20, 10);
  }

  // ---------------------------------------------------------- the first thirty primes

  const THIRTY: seq<int> := [2, 3, 5, 7, 11, 13, 17, 19, 23, 29, 31, 37, 41, 43, 47, 53, 59, 61, 67, 71, 73, 79, 83, 89, 97, 101, 103, 107, 109, 113]

  lemma ThirtyArePrime(i: nat)
    requires i < 30
    ensures Prime(THIRTY[i])
  {
    assert Undivided(THIRTY[i], 2);
    PrimeByTrial(THIRTY[i]);
  }

  /** No list of the first thirty primes runs past 113: an unlisted smaller prime would be a gap. */
  lemma {:induction false} NoLaterThan(ps: seq<int>, k: nat)
    requires FirstPrimes(ps) && |ps| == 30 && k < 30
    ensures ps[k] <= THIRTY[k]
  {
    hide FirstPrimes;
    ThirtyArePrime(k);
    if k > 0 {
      NoLaterThan(ps, k - 1);
    }
    assert k > 0 ==> THIRTY[k - 1] < THIRTY[k];
    if ps[k] > THIRTY[k] {
      var j := Earlier(ps, THIRTY[k], k);
      assert false;
    }
  }

  /** A prime below an entry of the list comes before it. */
  lemma Earlier(ps: seq<int>, q: int, k: nat) returns (j: nat)
    requires FirstPrimes(ps) && k < |ps| && Prime(q) && q < ps[k]
    ensures j < k && ps[j] == q <= ps[k - 1]
  {
    assert ps[k] <= ps[|ps| - 1];
    assert q in ps;
    j :| 0 <= j < |ps| && ps[j] == q;
  }

  // ------------------------------------------------------ a forced opening refused

  /** If the first nonce hashes to that prime, the search returns it at once, with an empty certificate. */
  lemma ChallengeFound(s: Setting, u: int, v: int, t: nat)
    requires Lawful(s) && s.candidate(u, v, t, 0) == CHALLENGE
    ensures FindChallenge(s, u, v, t) == Found(CHALLENGE, [], 0) && !ShortEnough(CHALLENGE, [])
  {
    hide Prime, FirstPrimes, Factors, Pow, MillerRabinWith;
    ChallengeIsPrime();
    PowPositive(2, s.nonceSize);
    NoLaterThan(s.bases, 29);
    assert s.bases[|s.bases| - 1] <= 113;
    PrimePassesAboveBases(CHALLENGE, s.bases);
    assert Path(CHALLENGE, s.factor) == Some([]);
  }

  /**
   * At such a hash an honest forced opening of any commitment finishes and is then refused: this commitment cannot be
   * forced open.
   */
  lemma ForcedOpeningRefused<C>(k: Crypto<C>, pp: TimeParams, c: Comm)
    requires Sized(k) && k.poe.m > 0 && pp.t < 0x1_0000_0000 && |c.ct| > 32
    requires k.poe.candidate(c.x, ForcedElement(k, pp, c), pp.t, 0) == CHALLENGE
    ensures BasicForceOpen(k, pp, c).Accepted?
    ensures var (m, o) := BasicForceOpen(k, pp, c).value; BasicVerOpen(k, pp, c, m, o) == Done(false)
  {
    hide BasicForceOpen, BasicVerOpen, FindChallenge, ForcedElement, RightClaim, ShortEnough;
    ChallengeFound(k.poe, c.x, ForcedElement(k, pp, c), pp.t);
    BasicForceVerdict(k, pp, c);
  }

  // ------------------------------------------------- a lazy opening that is an error

  /**
   * Whoever commits to the field's modulus in place of an opening makes a commitment that, forced open, yields
   * nothing, and whose verification is then an error.
   */
  lemma LazyOpeningErrs<C>(k: Crypto<C>, pp: TimeParams, ped: C, r: nat)
    requires Sized(k) && k.poe.m > 0 && Generated(k, pp) && pp.t < 0x1_0000_0000 && k.modulus < Pow(256, k.fieldBytes)
    ensures var res := BasicCommit(k, pp, r, ToBE(k.modulus, k.fieldBytes));
      && res.Done?
      && var c := LazyComm(ped, res.value.0);
      var f := LazyForceOpen(k, pp, c);
      && (f.Accepted? <==> FindChallenge(k.poe, c.tc.x, ForcedElement(k, pp, c.tc), pp.t).Found?)
      && (f.Accepted? ==> f.value.0 == None && LazyVerOpen(k, pp, c, f.value.0, f.value.1) == Done(None))
  {
    hide Pow, ToBE, FromBE, FromLE, BasicCommit, BasicForceOpen, BasicVerOpen, FindChallenge, ForcedElement, ShortEnough;
    var b := ToBE(k.modulus, k.fieldBytes);
    assert b[|b| - k.fieldBytes..] == b;
    BERoundTrip(k.modulus, k.fieldBytes);
    BasicComplete(k, pp, r, b);
    var c := LazyComm(ped, BasicCommit(k, pp, r, b).value.0);
    assert Tail(k, b) == k.modulus;
    if LazyForceOpen(k, pp, c).Accepted? {
      LazyForceAccepted(k, pp, c);
    }
  }
}
