/** What a Miller-Rabin round decides of any odd number, in terms of powers alone (rsa/src/hash_to_prime/mod.rs). */
module StrongTest {
  import opened Arithmetic
  import opened Outcomes
  import opened MillerRabin

  /** `m / 2^j`. */
  function Halved(m: nat, j: nat): nat
  {
    if j == 0 then m else Halved(m / 2, j - 1)
  }

  /** `m` can be halved `j` times without a remainder. */
  predicate Halves(m: nat, j: nat)
  {
    j == 0 || (m % 2 == 0 && Halves(m / 2, j - 1))
  }

  /** Halving the exponent from `n - 1` down, the square roots of 1 that are met are 1 and -1. */
  ghost predicate OnlyTrivialRoots(n: int, b: int)
    requires n > 1
  {
    forall j: nat :: j >= 1 ==> TrivialAt(n, b, j)
  }

  /** If the power before the `j`-th halving of the exponent is 1, the one after it is 1 or -1. */
  predicate TrivialAt(n: int, b: int, j: nat)
    requires n > 1 && j >= 1
  {
    (Halves(n - 1, j) && Cong(Pow(b, Halved(n - 1, j - 1)), 1, n)) ==>
      Cong(Pow(b, Halved(n - 1, j)), 1, n) || Cong(Pow(b, Halved(n - 1, j)), -1, n)
  }

  // ------------------------------------------------------ exponents of the chain

  lemma {:induction false} HalvedOnce(m: nat, j: nat)
    requires j >= 1
    ensures Halved(m, j) == Halved(m, j - 1) / 2
    ensures Halves(m, j) <==> Halves(m, j - 1) && Halved(m, j - 1) % 2 == 0
  {
    if j > 1 {
      HalvedOnce(m / 2, j - 1);
    }
  }

  /** A number `2^s * d` with `d` odd can be halved exactly up to `s` times, down to `2^(s-j) * d`. */
  lemma {:induction false} HalvedOf(m: nat, s: nat, d: nat, j: nat)
    requires m == Pow2(s) * d && d % 2 == 1
    ensures Halves(m, j) <==> j <= s
    ensures j <= s ==> Halved(m, j) == d * Pow2(s - j)
    decreases j
  {
    if j == 0 {
      assert Pow2(s) * d == d * Pow2(s);
    } else {
      HalvedOnce(m, j);
      HalvedOf(m, s, d, j - 1);
      if j <= s {
        Doubled(d, Pow2(s - j), Pow2(s - j + 1));
      } else if j == s + 1 {
        assert d * Pow2(0) == d;
      }
    }
  }

  lemma Doubled(d: nat, p: nat, q: nat)
    requires q == 2 * p
    ensures (d * q) % 2 == 0 && d * q / 2 == d * p
  {
    assert d * q == 2 * (d * p);
  }

  // ----------------------------------------------------------------- the chain

  /** The power after `i` squarings. */
  function At(b: int, d: nat, i: nat): int
  {
    Pow(b, d * Pow2(i))
  }

  lemma AtStep(b: int, d: nat, i: nat)
    ensures At(b, d, i + 1) == At(b, d, i) * At(b, d, i)
  {
    assert d * Pow2(i + 1) == d * Pow2(i) + d * Pow2(i);
    PowAdd(b, d * Pow2(i), d * Pow2(i));
  }

  lemma LevelIs(n: int, b: int, d: nat, i: nat)
    requires n > 2
    ensures Level(n, b, d, i) == 1 <==> Cong(At(b, d, i), 1, n)
    ensures HitsMinusOne(n, b, d, i) <==> Cong(At(b, d, i), -1, n)
  {
    DivModUnique(1, 0, n, 1);
    DivModUnique(-1, -1, n, n - 1);
  }

  lemma {:induction false} OnesStay(n: int, b: int, d: nat, i: nat, k: nat)
    requires n > 2 && i <= k && Cong(At(b, d, i), 1, n)
    ensures Cong(At(b, d, k), 1, n)
    decreases k
  {
    if i < k {
      OnesStay(n, b, d, i, k - 1);
      AtStep(b, d, k - 1);
      CongMul(At(b, d, k - 1), 1, At(b, d, k - 1), 1, n);
    }
  }

  lemma AfterMinusOne(n: int, b: int, d: nat, i: nat, k: nat)
    requires n > 2 && i < k && Cong(At(b, d, i), -1, n)
    ensures Cong(At(b, d, k), 1, n)
  {
    AtStep(b, d, i);
    CongMul(At(b, d, i), -1, At(b, d, i), -1, n);
    OnesStay(n, b, d, i + 1, k);
  }

  /** One below `s` is -1 or the first is 1: then the last is 1 and only trivial roots are met. */
  lemma ReachedIsTrivial(n: int, b: int, d: nat, s: nat, i: nat)
    requires n > 2 && ReachesMinusOne(n, b, d, s)
    ensures Cong(At(b, d, s), 1, n)
    ensures i < s && Cong(At(b, d, i + 1), 1, n) ==> Cong(At(b, d, i), 1, n) || Cong(At(b, d, i), -1, n)
  {
    hide Level, HitsMinusOne, At, Cong;
    LevelIs(n, b, d, 0);
    if Level(n, b, d, 0) == 1 {
      OnesStay(n, b, d, 0, s);
      OnesStay(n, b, d, 0, i);
    } else {
      var h :| 0 <= h < s && HitsMinusOne(n, b, d, h);
      LevelIs(n, b, d, h);
      AfterMinusOne(n, b, d, h, s);
      if h < i {
        AfterMinusOne(n, b, d, h, i);
      } else if i < h && Cong(At(b, d, i + 1), 1, n) {
        OnesStay(n, b, d, i + 1, h);
        OneIsNotMinusOne(At(b, d, h), n);
        assert false;
      }
    }
  }

  lemma OneIsNotMinusOne(x: int, n: int)
    requires n > 2 && Cong(x, 1, n)
    ensures !Cong(x, -1, n)
  {
    DivModUnique(1, 0, n, 1);
    DivModUnique(-1, -1, n, n - 1);
  }

  /** Conversely, going down from 1 over trivial roots one meets -1 or arrives at 1. */
  lemma {:induction false} TrivialIsReached(n: int, b: int, d: nat, s: nat)
    requires n > 2 && Cong(At(b, d, s), 1, n)
    requires forall i: nat :: i < s && Cong(At(b, d, i + 1), 1, n) ==> Cong(At(b, d, i), 1, n) || Cong(At(b, d, i), -1, n)
    ensures ReachesMinusOne(n, b, d, s)
  {
    hide At, Cong;
    if s == 0 {
      LevelIs(n, b, d, 0);
    } else {
      assert Cong(At(b, d, (s - 1) + 1), 1, n);
      LevelIs(n, b, d, s - 1);
      if Cong(At(b, d, s - 1), 1, n) {
        TrivialIsReached(n, b, d, s - 1);
      }
    }
  }

  /**
   * For every number above 1 and every base: a round is passed exactly when the number is odd, the power to `n - 1` is
   * 1 and no square root of 1 other than 1 and -1 is met on the way down.
   */
  lemma RoundInPowers(n: int, b: int)
    requires n > 1
    ensures Round(n, b).Done? && (Round(n, b) == Done(true) <==> n % 2 == 1 && Cong(Pow(b, n - 1), 1, n) && OnlyTrivialRoots(n, b))
  {
    if n % 2 == 1 {
      hide OnlyTrivialRoots;
      OddRoundInPowers(n, b);
    }
  }

  lemma OddRoundInPowers(n: int, b: int)
    requires n > 1 && n % 2 == 1
    ensures Round(n, b) == Done(true) <==> Cong(Pow(b, n - 1), 1, n) && OnlyTrivialRoots(n, b)
  {
    var s, d := Twos(n - 1), OddPart(n - 1);
    assert Round(n, b) == Done(ReachesMinusOne(n, b, d, s));
    hide Round, StrongProbablePrime, ReachesMinusOne, OnlyTrivialRoots, Cong, Pow, At;
    TopPower(n, b, d, s);
    if ReachesMinusOne(n, b, d, s) {
      ReachedMeetsTrivial(n, b, d, s);
    }
    if Cong(Pow(b, n - 1), 1, n) && OnlyTrivialRoots(n, b) {
      TrivialMeetsReached(n, b, d, s);
    }
  }

  /** The power to `n - 1` is the one after all squarings. */
  lemma TopPower(n: int, b: int, d: nat, s: nat)
    requires n > 1 && n - 1 == Pow2(s) * d
    ensures Pow(b, n - 1) == At(b, d, s)
  {
    hide Pow, Pow2;
    assert d * Pow2(s) == n - 1;
  }

  lemma ReachedMeetsTrivial(n: int, b: int, d: nat, s: nat)
    requires n > 2 && n - 1 == Pow2(s) * d && d % 2 == 1 && ReachesMinusOne(n, b, d, s)
    ensures Cong(At(b, d, s), 1, n) && OnlyTrivialRoots(n, b)
  {
    hide ReachesMinusOne, Cong, Pow, Halved, Halves, Pow2;
    ReachedIsTrivial(n, b, d, s, 0);
    forall j: nat | j >= 1 ensures TrivialAt(n, b, j) {
      HalvedOf(n - 1, s, d, j);
      HalvedOf(n - 1, s, d, j - 1);
      if j <= s {
        ReachedIsTrivial(n, b, d, s, s - j);
      }
    }
  }

  lemma TrivialMeetsReached(n: int, b: int, d: nat, s: nat)
    requires n > 2 && n - 1 == Pow2(s) * d && d % 2 == 1 && Cong(At(b, d, s), 1, n) && OnlyTrivialRoots(n, b)
    ensures ReachesMinusOne(n, b, d, s)
  {
    hide ReachesMinusOne, Cong, Pow, Halved, Halves, Pow2;
    forall i: nat | i < s && Cong(At(b, d, i + 1), 1, n) ensures Cong(At(b, d, i), 1, n) || Cong(At(b, d, i), -1, n) {
      assert TrivialAt(n, b, s - i);
      HalvedOf(n - 1, s, d, s - i);
      HalvedOf(n - 1, s, d, s - i - 1);
    }
    TrivialIsReached(n, b, d, s);
  }

  /** Passing a round is passing Fermat's test at the least. */
  lemma PassedIsFermat(n: int, b: int)
    requires Round(n, b) == Done(true)
    ensures n > 1 && n % 2 == 1 && Cong(Pow(b, n - 1), 1, n)
  {
    RoundInPowers(n, b);
  }

  /** All rounds are passed exactly when each base has that property. */
  lemma {:induction false} AllRoundsInPowers(n: int, bases: seq<int>)
    requires n > 1 && n % 2 == 1
    ensures MillerRabinWith(n, bases) == Done(true)
       <==> forall i :: 0 <= i < |bases| ==> Cong(Pow(bases[i], n - 1), 1, n) && OnlyTrivialRoots(n, bases[i])
  {
    hide Round, OnlyTrivialRoots, Cong, Pow;
    if bases != [] {
      RoundInPowers(n, bases[0]);
      OddRoundEnds(n, bases[0]);
      AllRoundsInPowers(n, bases[1..]);
      assert forall i :: 1 <= i < |bases| ==> bases[i] == bases[1..][i - 1];
      assert forall i :: 0 <= i < |bases[1..]| ==> bases[1..][i] == bases[i + 1];
    }
  }

  // --------------------------------------------------------- composites rejected

  /** 9 fails Fermat's test to base 2. */
  lemma NineRejected()
    ensures Round(9, 2) == Done(false)
  {
    hide Cong, Pow, Round;
    PowFirst(2, 9);
    PowTimes(2, 1, 2, 1, 2, 4, 9);
    PowTimes(2, 2, 4, 2, 4, 7, 9);
    PowTimes(2, 4, 7, 4, 7, 4, 9);
    RoundInPowers(9, 2);
    NotOne(2, 8, 4, 9);
    OddRoundEnds(9, 2);
  }

  /** The Carmichael number 561 passes Fermat's test to base 2, but 67 is a square root of 1 on the way. */
  lemma CarmichaelRejected()
    ensures Cong(Pow(2, 560), 1, 561) && Round(561, 2) == Done(false)
  {
    hide Cong, Pow, Round;
    PowFirst(2, 561);
    PowTimes(2, 1, 2, 1, 2, 4, 561);
    PowTimes(2, 2, 4, 1, 2, 8, 561);
    PowTimes(2, 2, 4, 2, 4, 16, 561);
    PowTimes(2, 4, 16, 4, 16, 256, 561);
    PowTimes(2, 8, 256, 8, 256, 460, 561);
    PowTimes(2, 16, 460, 16, 460, 103, 561);
    PowTimes(2, 32, 103, 3, 8, 263, 561);
    PowTimes(2, 35, 263, 35, 263, 166, 561);
    PowTimes(2, 70, 166, 70, 166, 67, 561);
    PowTimes(2, 140, 67, 140, 67, 1, 561);
    PowTimes(2, 280, 1, 280, 1, 1, 561);
    NotOne(2, 140, 67, 561);
    RoundInPowers(561, 2);
    assert Halved(560, 1) == 280 && Halved(560, 2) == 140 && Halves(560, 2);
    assert !TrivialAt(561, 2, 2);
    OddRoundEnds(561, 2);
  }

  lemma OddRoundEnds(n: int, b: int)
    requires n > 1 && n % 2 == 1
    ensures Round(n, b) == Done(true) || Round(n, b) == Done(false)
  {
  }

  lemma NotOne(b: int, e: nat, x: int, n: int)
    requires 1 < x < n - 1 && Cong(Pow(b, e), x, n)
    ensures !Cong(Pow(b, e), 1, n) && !Cong(Pow(b, e), -1, n)
  {
    DivModUnique(x, 0, n, x);
    DivModUnique(1, 0, n, 1);
    DivModUnique(-1, -1, n, n - 1);
  }
}
