/** Greatest common divisors, primes, Euclid's lemma and Fermat's little theorem. */
module Primes {
  import opened Arithmetic

  /** Extended Euclid: `x*a + y*b == g` and `g` is the non-negative greatest common divisor. */
  datatype Bezout = Bezout(x: int, y: int, g: int)

  function ExtendedGcd(a: int, b: int): (r: Bezout)
    ensures r.x * a + r.y * b == r.g
    ensures r.g >= 0
    ensures a != 0 || b != 0 ==> r.g > 0 && Div(r.g, a) && Div(r.g, b)
    decreases Abs(b)
  {
    if b == 0 then
      if a < 0 then NegativeBase(a); Bezout(-1, 0, -a) else NonNegativeBase(a); Bezout(1, 0, a)
    else
      var q := if b > 0 then a / b else -(a / -b);
      var m := a % Abs(b);
      SplitByDivisor(a, b, q, m);
      var s := ExtendedGcd(b, m);
      BezoutStep(a, b, q, m, s);
      Bezout(s.y, s.x - q * s.y, s.g)
  }

  lemma SplitByDivisor(a: int, b: int, q: int, m: int)
    requires b != 0 && q == (if b > 0 then a / b else -(a / -b)) && m == a % Abs(b)
    ensures a == b * q + m && 0 <= m < Abs(b)
  {
    var d := Abs(b);
    assert a == d * (a / d) + m;
  }

  lemma NegativeBase(a: int)
    requires a < 0
    ensures Div(-a, a) && Div(-a, 0)
  {
    DivIntro(-a, -1, a);
    DivIntro(-a, 0, 0);
  }

  lemma NonNegativeBase(a: int)
    requires a >= 0
    ensures a > 0 ==> Div(a, a) && Div(a, 0)
  {
    if a > 0 {
      DivIntro(a, 1, a);
      DivIntro(a, 0, 0);
    }
  }

  lemma BezoutStep(a: int, b: int, q: int, m: int, s: Bezout)
    requires a == b * q + m
    requires s.x * b + s.y * m == s.g > 0 && Div(s.g, b) && Div(s.g, m)
    ensures s.y * a + (s.x - q * s.y) * b == s.g
    ensures Div(s.g, a)
  {
    assert s.y * a == s.y * (b * q) + s.y * m;
    assert (s.x - q * s.y) * b == s.x * b - q * s.y * b;
    assert s.y * (b * q) == q * s.y * b;
    DivMul(s.g, b, q);
    DivSum(s.g, b * q, m);
  }

  ghost predicate Prime(p: int)
  {
    p >= 2 && forall d :: 2 <= d < p ==> !Div(d, p)
  }

  /** The only positive divisors of a prime are 1 and itself. */
  lemma PrimeDivisors(p: int, d: int)
    requires Prime(p) && d > 0 && Div(d, p)
    ensures d == 1 || d == p
  {
    DivBound(d, p);
  }

  /** Every integer above 1 has a prime divisor. */
  lemma {:induction false} PrimeFactor(n: int) returns (q: int)
    requires n >= 2
    ensures Prime(q) && Div(q, n) && 2 <= q <= n
    decreases n
  {
    if Prime(n) {
      DivIntro(n, 1, n);
      return n;
    }
    var d :| 2 <= d < n && Div(d, n);
    q := PrimeFactor(d);
    DivTrans(q, d, n);
  }

  ghost predicate Coprime(a: int, b: int)
  {
    forall d :: d > 1 && Div(d, a) ==> !Div(d, b)
  }

  /** Two numbers with no common prime divisor have a Bezout combination equal to 1. */
  lemma BezoutOfCoprime(a: int, b: int) returns (x: int, y: int)
    requires a != 0 || b != 0
    requires Coprime(a, b)
    ensures x * a + y * b == 1
  {
    var r := ExtendedGcd(a, b);
    assert r.g <= 1;
    x, y := r.x, r.y;
  }

  /** Gauss: if `a` divides `b*c` and is coprime to `b`, it divides `c`. */
  lemma Gauss(a: int, b: int, c: int)
    requires a > 0 && Div(a, b * c) && Coprime(a, b)
    ensures Div(a, c)
  {
    var x, y := BezoutOfCoprime(a, b);
    hide *;
    DivIntro(a, 1, a);
    DivMul(a, a, x * c);
    DivMul(a, b * c, y);
    DivSum(a, a * (x * c), y * (b * c));
    CombinationTimes(a, b, c, x, y);
  }

  lemma CombinationTimes(a: int, b: int, c: int, x: int, y: int)
    requires x * a + y * b == 1
    ensures a * (x * c) + y * (b * c) == c
  {
    assert a * (x * c) == (x * a) * c;
    assert y * (b * c) == (y * b) * c;
    assert (x * a) * c + (y * b) * c == (x * a + y * b) * c;
  }

  lemma PrimeCoprime(p: int, a: int)
    requires Prime(p) && !Div(p, a)
    ensures Coprime(p, a)
  {
    forall d | d > 1 && Div(d, p) ensures !Div(d, a) {
      PrimeDivisors(p, d);
    }
  }

  /** Euclid's lemma. */
  lemma Euclid(p: int, a: int, b: int)
    requires Prime(p) && Div(p, a * b)
    ensures Div(p, a) || Div(p, b)
  {
    if !Div(p, a) {
      PrimeCoprime(p, a);
      Gauss(p, a, b);
    }
  }

  /** A prime dividing a power divides its base. */
  lemma {:induction false} PrimeDividesPow(p: int, b: int, e: nat)
    requires Prime(p) && Div(p, Pow(b, e))
    ensures Div(p, b) && e > 0
  {
    if e == 0 {
      DivBound(p, 1);
      assert false;
    } else {
      Euclid(p, b, Pow(b, e - 1));
      if !Div(p, b) {
        PrimeDividesPow(p, b, e - 1);
      }
    }
  }

  lemma PrimeDividesPrime(p: int, q: int)
    requires Prime(p) && Prime(q) && Div(p, q)
    ensures p == q
  {
    PrimeDivisors(q, p);
  }

  /** A factor that does not divide can be cancelled from a congruence modulo a prime. */
  lemma CongCancel(k: int, a: int, b: int, p: int)
    requires Prime(p) && !Div(p, k) && Cong(k * a, k * b, p)
    ensures Cong(a, b, p)
  {
    CongDiff(k * a, k * b, p);
    assert k * a - k * b == k * (a - b);
    Euclid(p, k, a - b);
    CongDiff(a, b, p);
  }

  /** Modulo a prime the only square roots of 1 are 1 and -1. */
  lemma SquareRootsOfOne(x: int, p: int)
    requires Prime(p) && Cong(x * x, 1, p)
    ensures Cong(x, 1, p) || Cong(x, -1, p)
  {
    CongDiff(x * x, 1, p);
    assert x * x - 1 == (x - 1) * (x + 1);
    Euclid(p, x - 1, x + 1);
    CongDiff(x, 1, p);
    CongDiff(x, -1, p);
  }

  // ------------------------------------------------- Fermat's little theorem

  function Choose(n: nat, k: nat): nat
  {
    if k == 0 then 1
    else if n == 0 then 0
    else Choose(n - 1, k - 1) + Choose(n - 1, k)
  }

  lemma {:induction false} ChooseAbove(n: nat, k: nat)
    requires k > n
    ensures Choose(n, k) == 0
  {
    if n > 0 {
      ChooseAbove(n - 1, k - 1);
      ChooseAbove(n - 1, k);
    }
  }

  lemma {:induction false} ChooseSame(n: nat)
    ensures Choose(n, n) == 1
  {
    if n > 0 {
      ChooseSame(n - 1);
      ChooseAbove(n - 1, n);
    }
  }

  lemma AbsorbAlgebra(n: int, k: int, c: int, d: int, b: int)
    requires k * b == (n - 1) * d && (k - 1) * (c + d) == (n - 1) * c
    ensures k * (c + d + b) == n * (c + d)
  {
    var a := c + d;
    assert k * a == (k - 1) * a + a;
    assert n * a == (n - 1) * a + a;
    assert (n - 1) * a == (n - 1) * c + (n - 1) * d;
    assert k * (a + b) == k * a + k * b;
  }

  lemma {:induction false} ChooseAbsorb(n: nat, k: nat)
    requires n > 0 && k > 0
    ensures k * Choose(n, k) == n * Choose(n - 1, k - 1)
    decreases n
  {
    if n == 1 {
      if k > 1 {
        ChooseAbove(1, k);
        ChooseAbove(0, k - 1);
      }
    } else {
      var b := Choose(n - 1, k);
      ChooseAbsorb(n - 1, k);
      if k == 1 {
        AbsorbAlgebra(n, k, 0, 1, b);
      } else {
        ChooseAbsorb(n - 1, k - 1);
        AbsorbAlgebra(n, k, Choose(n - 2, k - 2), Choose(n - 2, k - 1), b);
      }
    }
  }

  /** The first `k + 1` terms of the binomial expansion of `(1 + a)^n`. */
  function BinomialSum(a: int, n: nat, k: nat): int
  {
    Choose(n, k) * Pow(a, k) + if k == 0 then 0 else BinomialSum(a, n, k - 1)
  }

  lemma BinomialStepAlgebra(a: int, c: int, d: int, p: int, s: int, t: int, u: int)
    requires s == t + a * u
    ensures (c + d) * (a * p) + s == (d * (a * p) + t) + a * (c * p + u)
  {
    assert (c + d) * (a * p) == c * (a * p) + d * (a * p);
    assert a * (c * p + u) == a * (c * p) + a * u;
    assert c * (a * p) == a * (c * p);
  }

  lemma {:induction false} BinomialStep(a: int, n: nat, k: nat)
    ensures BinomialSum(a, n + 1, k + 1) == BinomialSum(a, n, k + 1) + a * BinomialSum(a, n, k)
  {
    var c, d, p := Choose(n, k), Choose(n, k + 1), Pow(a, k);
    assert Choose(n + 1, k + 1) == c + d && Pow(a, k + 1) == a * p;
    assert BinomialSum(a, n + 1, k + 1) == (c + d) * (a * p) + BinomialSum(a, n + 1, k);
    assert BinomialSum(a, n, k + 1) == d * (a * p) + BinomialSum(a, n, k);
    if k == 0 {
      BinomialStepAlgebra(a, c, d, p, 1, 1, 0);
      assert BinomialSum(a, n + 1, 0) == 1 == BinomialSum(a, n, 0);
    } else {
      BinomialStep(a, n, k - 1);
      assert BinomialSum(a, n, k) == c * p + BinomialSum(a, n, k - 1);
      BinomialStepAlgebra(a, c, d, p, BinomialSum(a, n + 1, k), BinomialSum(a, n, k), BinomialSum(a, n, k - 1));
    }
  }

  lemma {:induction false} Binomial(a: int, n: nat)
    ensures BinomialSum(a, n, n) == Pow(1 + a, n)
  {
    if n > 0 {
      var b := BinomialSum(a, n - 1, n - 1);
      Binomial(a, n - 1);
      BinomialStep(a, n - 1, n - 1);
      ChooseAbove(n - 1, n);
      assert BinomialSum(a, n - 1, n) == Choose(n - 1, n) * Pow(a, n) + b;
      assert Pow(1 + a, n) == (1 + a) * b;
      OnePlus(a, b);
    }
  }

  lemma OnePlus(a: int, b: int)
    ensures (1 + a) * b == b + a * b
  {
  }

  lemma PrimeDividesChoose(p: int, k: nat)
    requires Prime(p) && 0 < k < p
    ensures Div(p, Choose(p, k))
  {
    ChooseAbsorb(p, k);
    DivIntro(p, Choose(p - 1, k - 1), k * Choose(p, k));
    Euclid(p, k, Choose(p, k));
    if Div(p, k) {
      DivBound(p, k);
      assert false;
    }
  }

  lemma {:induction false} BinomialSumModPrime(a: int, p: int, k: nat)
    requires Prime(p) && k < p
    ensures Cong(BinomialSum(a, p, k), 1, p)
  {
    if k == 0 {
      assert BinomialSum(a, p, 0) == 1;
    } else {
      BinomialSumModPrime(a, p, k - 1);
      PrimeDividesChoose(p, k);
      DivMul(p, Choose(p, k), Pow(a, k));
      CongDiff(Choose(p, k) * Pow(a, k), 0, p);
      CongAdd(Choose(p, k) * Pow(a, k), 0, BinomialSum(a, p, k - 1), 1, p);
    }
  }

  /** `a^p` is congruent to `a` modulo a prime `p`. */
  lemma {:induction false} FermatPower(a: nat, p: int)
    requires Prime(p)
    ensures Cong(Pow(a, p), a, p)
  {
    if a == 0 {
      assert Pow(0, p) == 0;
    } else {
      FermatPower(a - 1, p);
      Binomial(a - 1, p);
      ChooseSame(p);
      BinomialSumModPrime(a - 1, p, p - 1);
      assert Pow(a, p) == Pow(a - 1, p) + BinomialSum(a - 1, p, p - 1);
      CongAdd(Pow(a - 1, p), a - 1, BinomialSum(a - 1, p, p - 1), 1, p);
    }
  }

  /** Fermat's little theorem. */
  lemma Fermat(a: int, p: int)
    requires Prime(p) && !Div(p, a)
    ensures Cong(Pow(a, p - 1), 1, p)
  {
    var r := a % p;
    CongMod(a, p);
    FermatPower(r, p);
    if Div(p, r) {
      CongSmall(r, 0, p);
      assert false;
    }
    assert Pow(r, p) == r * Pow(r, p - 1);
    assert r * 1 == r;
    CongCancel(r, Pow(r, p - 1), 1, p);
    CongPow(r, a, p - 1, p);
  }

  // --------------------------------------------- exponents that give 1 modulo m

  /** If `a^e` and `a^f` are both 1 modulo `m`, so is `a` to their greatest common divisor. */
  lemma {:induction false} UnitExponents(a: int, e: nat, f: nat, m: int) returns (g: nat)
    requires m > 1 && e > 0 && f > 0
    requires Cong(Pow(a, e), 1, m) && Cong(Pow(a, f), 1, m)
    ensures g > 0 && Div(g, e) && Div(g, f) && Cong(Pow(a, g), 1, m)
    decreases e + f
  {
    if e == f {
      DivIntro(e, 1, e);
      g := e;
    } else if e < f {
      UnitDifference(a, e, f, m);
      g := UnitExponents(a, e, f - e, m);
      DivSum(g, e, f - e);
    } else {
      UnitDifference(a, f, e, m);
      g := UnitExponents(a, e - f, f, m);
      DivSum(g, f, e - f);
    }
  }

  lemma UnitDifference(a: int, e: nat, f: nat, m: int)
    requires m > 1 && e < f
    requires Cong(Pow(a, e), 1, m) && Cong(Pow(a, f), 1, m)
    ensures Cong(Pow(a, f - e), 1, m)
  {
    PowAdd(a, e, f - e);
    CongScale(Pow(a, f - e), Pow(a, e), 1, m);
    assert Pow(a, f - e) * 1 == Pow(a, f - e);
  }

  /** If `a^e` is 1 modulo `m`, so is `a` to any multiple of `e`. */
  lemma UnitMultiple(a: int, e: nat, k: nat, m: int)
    requires m > 1 && Cong(Pow(a, e), 1, m)
    ensures 0 <= e * k && Cong(Pow(a, e * k), 1, m)
  {
    PowMul(a, e, k);
    CongPow(Pow(a, e), 1, k, m);
    PowOne(k);
  }
}
