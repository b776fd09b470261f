/** Miller-Rabin rounds and the generator of small prime bases (rsa/src/hash_to_prime/mod.rs). */
module MillerRabin {
  import opened Arithmetic
  import opened Outcomes
  import opened Primes

  /** The number of trailing zero bits. */
  function Twos(m: nat): (s: nat)
    requires m > 0
    ensures Pow(2, s) > 0 && Div(Pow(2, s), m) && (m / Pow(2, s)) % 2 == 1
  {
    if m % 2 == 1 then
      DivIntro(1, m, m); 0
    else
      var s := Twos(m / 2);
      TwosStep(m, s);
      s + 1
  }

  lemma TwosStep(m: nat, s: nat)
    requires m > 0 && m % 2 == 0
    requires Pow(2, s) > 0 && Div(Pow(2, s), m / 2) && (m / 2 / Pow(2, s)) % 2 == 1
    ensures Div(Pow(2, s + 1), m) && m / Pow(2, s + 1) == m / 2 / Pow(2, s)
  {
    var d := m / 2 / Pow(2, s);
    DivExact(Pow(2, s), m / 2);
    assert m == 2 * (Pow(2, s) * d) == Pow(2, s + 1) * d;
    DivIntro(Pow(2, s + 1), d, m);
  }

  function OddPart(m: nat): (d: nat)
    requires m > 0
    ensures m == Pow(2, Twos(m)) * d && d % 2 == 1
  {
    DivExact(Pow(2, Twos(m)), m);
    DivBound(Pow(2, Twos(m)), m);
    m / Pow(2, Twos(m))
  }

  function Pow2(i: nat): (p: nat)
    ensures p > 0
  {
    PowPositive(2, i);
    Pow(2, i)
  }

  /** What `b^d` has become after `i` squarings modulo `n`. */
  function Level(n: int, b: int, d: nat, i: nat): int
    requires n > 0
  {
    ModPow(b, d * Pow2(i), n)
  }

  /** The power reached after `i` squarings is -1. */
  predicate HitsMinusOne(n: int, b: int, d: nat, i: nat)
    requires n > 0
  {
    Level(n, b, d, i) == n - 1
  }

  /** `n` is a strong probable prime to base `b`. */
  predicate StrongProbablePrime(n: int, b: int)
    requires n > 1
  {
    ReachesMinusOne(n, b, OddPart(n - 1), Twos(n - 1))
  }

  /** `b^d` is 1, or one of its first `s` levels is -1. */
  predicate ReachesMinusOne(n: int, b: int, d: nat, s: nat)
    requires n > 0
  {
    Level(n, b, d, 0) == 1 || exists i :: 0 <= i < s && HitsMinusOne(n, b, d, i)
  }

  /** One round: even numbers fail at once, odd numbers below 3 stop the program. */
  function Round(n: int, b: int): Outcome<bool>
  {
    if n % 2 == 0 then Done(false)
    else if n <= 1 then Panic
    else Done(StrongProbablePrime(n, b))
  }

  method MillerRabinRound(n: int, b: int) returns (r: Outcome<bool>)
    ensures r == Round(n, b)
  {
    if n % 2 == 0 {
      return Done(false);
    }
    if n <= 1 {
      return Panic;
    }
    OddHasTwo(n);
    var ok := SquareUp(n, b, OddPart(n - 1), Twos(n - 1));
    return Done(ok);
  }

  method SquareUp(n: int, b: int, d: nat, s: nat) returns (ok: bool)
    requires n > 1 && s > 0
    ensures ok == ReachesMinusOne(n, b, d, s)
  {
    var pow := ModPow(b, d, n);
    LevelZero(n, b, d);
    if pow == 1 || pow == n - 1 {
      assert pow == n - 1 ==> HitsMinusOne(n, b, d, 0);
      return true;
    }
    for i := 0 to s - 1
      invariant pow == Level(n, b, d, i)
      invariant forall j :: 0 <= j <= i ==> !HitsMinusOne(n, b, d, j)
    {
      LevelStep(n, b, d, i);
      pow := ModPow(pow, 2, n);
      if pow == n - 1 {
        assert HitsMinusOne(n, b, d, i + 1);
        return true;
      }
    }
    return false;
  }

  lemma OddHasTwo(n: int)
    requires n > 1 && n % 2 == 1
    ensures Twos(n - 1) >= 1
  {
  }

  lemma LevelZero(n: int, b: int, d: nat)
    requires n > 0
    ensures Level(n, b, d, 0) == ModPow(b, d, n)
  {
    assert d * Pow2(0) == d;
  }

  lemma LevelStep(n: int, b: int, d: nat, i: nat)
    requires n > 0
    ensures Level(n, b, d, i + 1) == ModPow(Level(n, b, d, i), 2, n)
    ensures Pow(b, d * Pow2(i + 1)) == Pow(Pow(b, d * Pow2(i)), 2)
  {
    var e := d * Pow2(i);
    assert d * Pow2(i + 1) == e * 2;
    PowMul(b, e, 2);
    CongMod(Pow(b, e), n);
    CongPow(ModPow(b, e, n), Pow(b, e), 2, n);
  }

  // ------------------------------------------------ a round never rejects a prime

  /** Going down from `b^(n-1) == 1`: some power on the way is -1, or the first one is 1. */
  lemma {:induction false} RootChain(n: int, b: int, d: nat, s: nat)
    requires Prime(n) && n > 2
    requires Cong(Pow(b, d * Pow2(s)), 1, n)
    ensures ReachesMinusOne(n, b, d, s)
  {
    if s == 0 {
      LevelZero(n, b, d);
      assert d * Pow2(0) == d;
      CongSmall(Level(n, b, d, 0), 1, n) by { CongMod(Pow(b, d), n); }
    } else {
      LevelStep(n, b, d, s - 1);
      var x := Pow(b, d * Pow2(s - 1));
      PowSquare(x);
      SquareRootsOfOne(x, n);
      if Cong(x, 1, n) {
        RootChain(n, b, d, s - 1);
      } else {
        MinusOne(x, n);
        assert HitsMinusOne(n, b, d, s - 1);
      }
    }
  }

  lemma MinusOne(x: int, n: int)
    requires n > 0 && Cong(x, -1, n)
    ensures x % n == n - 1
  {
    DivModUnique(-1, -1, n, n - 1);
  }

  /** A base divisible by the prime `n` gives 0 at every squaring. */
  lemma ZeroBase(n: int, b: int, e: nat)
    requires Prime(n) && Div(n, b) && e > 0
    ensures ModPow(b, e, n) == 0
  {
    DivMul(n, b, Pow(b, e - 1));
  }

  lemma ZeroBaseNeverHits(n: int, b: int, d: nat, s: nat)
    requires Prime(n) && n > 2 && Div(n, b) && d > 0
    ensures !ReachesMinusOne(n, b, d, s)
  {
    hide Pow2, ModPow;
    forall i | 0 <= i <= s ensures Level(n, b, d, i) == 0 {
      MulPositive(d, Pow2(i));
      ZeroBase(n, b, d * Pow2(i));
    }
  }

  lemma ZeroBaseMisses(n: int, b: int)
    requires Prime(n) && n > 2 && Div(n, b)
    ensures !StrongProbablePrime(n, b)
  {
    hide ReachesMinusOne, Pow, ModPow;
    ZeroBaseNeverHits(n, b, OddPart(n - 1), Twos(n - 1));
  }

  lemma NonZeroBaseHits(n: int, b: int)
    requires Prime(n) && n > 2 && !Div(n, b)
    ensures StrongProbablePrime(n, b)
  {
    var s, d := Twos(n - 1), OddPart(n - 1);
    Fermat(b, n);
    assert Pow2(s) * d == d * Pow2(s);
    RootChain(n, b, d, s);
  }

  /** For a prime the round says "probably prime" exactly when it is odd and does not divide the base. */
  lemma RoundOnPrime(n: int, b: int)
    requires Prime(n)
    ensures Round(n, b) == Done(n != 2 && !Div(n, b))
  {
    hide StrongProbablePrime;
    if n % 2 == 0 {
      TwoIsPrime();
      PrimeDividesPrime(2, n);
    } else if Div(n, b) {
      ZeroBaseMisses(n, b);
    } else {
      NonZeroBaseHits(n, b);
    }
  }

  lemma TwoIsPrime()
    ensures Prime(2)
  {
  }

  // --------------------------------------------------------------- the bases

  /** `ps` lists the first primes, in order and without gaps. */
  ghost predicate FirstPrimes(ps: seq<int>)
  {
    && |ps| >= 1
    && (forall i :: 0 <= i < |ps| ==> Prime(ps[i]))
    && (forall i, j :: 0 <= i < j < |ps| ==> ps[i] < ps[j])
    && (forall q :: Prime(q) && q <= ps[|ps| - 1] ==> q in ps)
  }

  function Product(ps: seq<int>): int
  {
    if ps == [] then 1 else ps[0] * Product(ps[1..])
  }

  lemma {:induction false} ProductDivisible(ps: seq<int>, i: nat)
    requires i < |ps| && forall k :: 0 <= k < |ps| ==> ps[k] > 0
    ensures Product(ps) > 0 && Div(ps[i], Product(ps))
  {
    ProductPositive(ps);
    if i == 0 {
      DivIntro(ps[0], Product(ps[1..]), Product(ps));
    } else {
      ProductDivisible(ps[1..], i - 1);
      DivMul(ps[i], Product(ps[1..]), ps[0]);
    }
  }

  lemma {:induction false} ProductPositive(ps: seq<int>)
    requires forall k :: 0 <= k < |ps| ==> ps[k] > 0
    ensures Product(ps) > 0
  {
    if ps != [] {
      ProductPositive(ps[1..]);
      MulPositive(ps[0], Product(ps[1..]));
    }
  }

  /** Euclid: there is always a prime above the listed ones. */
  lemma NextPrime(ps: seq<int>) returns (q: int)
    requires FirstPrimes(ps)
    ensures Prime(q) && q > ps[|ps| - 1]
  {
    var m := Product(ps) + 1;
    ProductPositive(ps);
    q := PrimeFactor(m);
    if q <= ps[|ps| - 1] {
      var i :| 0 <= i < |ps| && ps[i] == q;
      ProductDivisible(ps, i);
      DivSum(q, m, Product(ps));
      DivBound(q, 1);
      assert false;
    }
  }

  /** A number is prime when no smaller prime divides it. */
  lemma PrimeBySieve(n: int, ps: seq<int>)
    requires FirstPrimes(ps) && n > ps[|ps| - 1]
    requires forall q :: Prime(q) && q < n ==> q in ps
    ensures Prime(n) <==> NoneDivides(ps, n)
  {
    if Prime(n) {
      forall i | 0 <= i < |ps| ensures n % ps[i] != 0 {
        assert !Div(ps[i], n);
      }
    } else {
      var q := PrimeFactor(n);
      assert q != n;
      var i :| 0 <= i < |ps| && ps[i] == q;
      assert n % ps[i] == 0;
    }
  }

  /** One step of the sieve keeps the list gap-free. */
  lemma ExtendPrimes(ps: seq<int>, n: int)
    requires FirstPrimes(ps) && n > ps[|ps| - 1] && Prime(n)
    requires forall q :: Prime(q) && q < n ==> q in ps
    ensures FirstPrimes(ps + [n])
    ensures forall q :: Prime(q) && q < n + 1 ==> q in ps + [n]
  {
  }

  predicate NoneDivides(ps: seq<int>, n: int)
    requires forall i :: 0 <= i < |ps| ==> ps[i] > 0
  {
    forall i :: 0 <= i < |ps| ==> n % ps[i] != 0
  }

  method SmallPrimes(n: nat) returns (ps: seq<int>)
    ensures FirstPrimes(ps)
    ensures |ps| == if n == 0 then 1 else n
  {
    ps := [2];
    var next := 3;
    TwoIsPrime();
    ghost var bound := NextPrime(ps);
    while |ps| < n
      invariant FirstPrimes(ps)
      invariant |ps| <= n || |ps| == 1
      invariant ps[|ps| - 1] < next <= bound && Prime(bound)
      invariant forall q :: Prime(q) && q < next ==> q in ps
      decreases n - |ps|, bound - next
    {
      PrimeBySieve(next, ps);
      if NoneDivides(ps, next) {
        ExtendPrimes(ps, next);
        ps := ps + [next];
        bound := NextPrime(ps);
      }
      next := next + 1;
    }
  }

  /** All rounds in turn; the first failing round decides. */
  function MillerRabinWith(n: int, bases: seq<int>): Outcome<bool>
  {
    if bases == [] then Done(true)
    else match Round(n, bases[0])
      case Panic => Panic
      case Done(ok) => if ok then MillerRabinWith(n, bases[1..]) else Done(false)
  }

  method RunRounds(n: int, ps: seq<int>) returns (r: Outcome<bool>)
    ensures r == MillerRabinWith(n, ps)
  {
    for i := 0 to |ps|
      invariant MillerRabinWith(n, ps) == MillerRabinWith(n, ps[i..])
    {
      var ok := MillerRabinRound(n, ps[i]);
      assert ps[i..][1..] == ps[i + 1..];
      if ok.Panic? || !ok.value {
        return ok;
      }
    }
    r := Done(true);
  }

  lemma {:induction false} MillerRabinOnPrime(n: int, bases: seq<int>)
    requires Prime(n)
    ensures MillerRabinWith(n, bases) == Done(bases == [] || (n != 2 && forall i :: 0 <= i < |bases| ==> !Div(n, bases[i])))
  {
    if bases != [] {
      RoundOnPrime(n, bases[0]);
      MillerRabinOnPrime(n, bases[1..]);
      if n != 2 && !Div(n, bases[0]) {
        if forall i :: 0 <= i < |bases[1..]| ==> !Div(n, bases[1..][i]) {
          forall i | 0 <= i < |bases| ensures !Div(n, bases[i]) {
            if i > 0 {
              assert bases[i] == bases[1..][i - 1];
            }
          }
        } else {
          var i :| 0 <= i < |bases[1..]| && Div(n, bases[1..][i]);
          assert Div(n, bases[i + 1]);
        }
      }
    }
  }

  /** A prime passes the test exactly when it lies above every base. */
  lemma PrimePassesAboveBases(n: int, bases: seq<int>)
    requires Prime(n) && FirstPrimes(bases)
    ensures MillerRabinWith(n, bases) == Done(n > bases[|bases| - 1])
  {
    MillerRabinOnPrime(n, bases);
    TwoIsPrime();
    assert Prime(bases[0]) && bases[0] <= bases[|bases| - 1];
    assert 2 in bases;
    if n > bases[|bases| - 1] {
      forall i | 0 <= i < |bases| ensures !Div(n, bases[i]) {
        if Div(n, bases[i]) {
          DivBound(n, bases[i]);
          assert false;
        }
      }
    } else {
      var i :| 0 <= i < |bases| && bases[i] == n;
      DivIntro(n, 1, n);
    }
  }

  /** The bases of a test with so many rounds; asking for none still gives one. */
  ghost predicate BasesFor(rounds: nat, bases: seq<int>)
  {
    FirstPrimes(bases) && |bases| == if rounds == 0 then 1 else rounds
  }

  /** All rounds with the first primes as bases: a prime passes exactly when it is larger than all of them. */
  method MillerRabinTest(n: int, rounds: nat) returns (r: Outcome<bool>)
    ensures exists bases :: BasesFor(rounds, bases) && r == MillerRabinWith(n, bases) && (Prime(n) ==> r == Done(n > bases[|bases| - 1]))
  {
    var ps := SmallPrimes(rounds);
    r := RunRounds(n, ps);
    if Prime(n) {
      PrimePassesAboveBases(n, ps);
    }
    assert BasesFor(rounds, ps);
  }

  /** The three-base test used on the last number of a certificate chain. */
  function MillerRabin32(n: int): Outcome<bool>
  {
    MillerRabinWith(n, [2, 7, 61])
  }

  /** The three-base test accepts every prime except its own bases. */
  lemma MillerRabin32OnPrime(n: int)
    requires Prime(n)
    ensures MillerRabin32(n) == Done(n != 2 && n != 7 && n != 61)
  {
    var bases := [2, 7, 61];
    MillerRabinOnPrime(n, bases);
    if n == 7 || n == 61 {
      DivIntro(n, 1, n);
      assert Div(n, if n == 7 then bases[1] else bases[2]);
    } else if n != 2 {
      BasesArePrime();
      forall i | 0 <= i < 3 ensures !Div(n, bases[i]) {
        if Div(n, bases[i]) {
          PrimeDividesPrime(n, bases[i]);
        }
      }
    }
  }

  lemma BasesArePrime()
    ensures Prime(2) && Prime(7) && Prime(61)
  {
    forall d | 2 <= d < 61 ensures !Div(d, 61) {
      assert 61 % d != 0;
    }
  }
}
