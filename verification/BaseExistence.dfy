/**
 * What the test on the base `a` of a Pocklington step means, and that the search for a base
 * succeeds on every prime (rsa/src/hash_to_prime/pocklington.rs). A polynomial has at most as many
 * roots modulo a prime as its degree, so too few bases can fail.
 */
module BaseExistence {
  import opened Arithmetic
  import opened CertificateGeneration
  import opened Outcomes
  import opened Pocklington
  import opened Primes
  import opened Sums

  // ------------------------------------------------------- the test in powers

  lemma UnitGcd(x: int, p: int)
    requires p > 1
    ensures NoCommonFactor(x, p) <==> Coprime(x, p)
  {
    var r := ExtendedGcd(x, p);
    if r.g == 1 {
      forall d | d > 1 && Div(d, x) ensures !Div(d, p) {
        if Div(d, p) {
          DivMul(d, x, r.x);
          DivMul(d, p, r.y);
          DivSum(d, r.x * x, r.y * p);
          DivBound(d, 1);
          assert false;
        }
      }
    } else {
      assert r.g > 1 && Div(r.g, x) && Div(r.g, p);
    }
  }

  /** The greatest common divisor with `p` sees a number only modulo `p`. */
  lemma CoprimeModulo(x: int, p: int)
    requires p > 1
    ensures Coprime(x % p - 1, p) <==> Coprime(x - 1, p)
  {
    var k := x / p;
    forall d | d > 1 && Div(d, p) ensures Div(d, x % p - 1) <==> Div(d, x - 1) {
      DivMul(d, p, k);
      assert (x - 1) - p * k == x % p - 1;
      if Div(d, x - 1) {
        DivSum(d, x - 1, p * k);
      }
      if Div(d, x % p - 1) {
        DivSum(d, x % p - 1, p * k);
        assert (x % p - 1) + p * k == x - 1;
      }
    }
  }

  lemma UnitTest(x: int, p: int)
    requires p > 1
    ensures NoCommonFactor(x % p - 1, p) <==> Coprime(x - 1, p)
    ensures x % p == 1 <==> Cong(x, 1, p)
  {
    hide NoCommonFactor, Coprime;
    UnitGcd(x % p - 1, p);
    CoprimeModulo(x, p);
    CongSmall(1, 1, p);
    DivModUnique(1, 0, p, 1);
  }

  lemma CutNonnegative(m: int, f: int)
    requires m >= 0 && f > 0
    ensures m / f >= 0
  {
  }

  /**
   * A base passes for any `p` exactly when its power to `p - 1` is 1 while its powers to
   * `(p - 1) / f` and `(p - 1) / 2` are not 1 modulo any divisor of `p`.
   */
  lemma BasePasses(p: int, f: int, a: int)
    requires p > 1 && f > 0
    ensures (p - 1) / f >= 0
    ensures TestA(p, f, a)
            <==>
            && Cong(Pow(a, p - 1), 1, p)
            && Coprime(Pow(a, (p - 1) / f) - 1, p)
            && Coprime(Pow(a, (p - 1) / 2) - 1, p)
  {
    hide Pow, NoCommonFactor, Coprime, Cong;
    assert (p - 1) / f >= 0 by { CutNonnegative(p - 1, f); }
    UnitTest(Pow(a, p - 1), p);
    UnitTest(Pow(a, (p - 1) / f), p);
    UnitTest(Pow(a, (p - 1) / 2), p);
  }

  lemma CoprimeToPrime(x: int, p: int)
    requires Prime(p)
    ensures Coprime(x - 1, p) <==> !Cong(x, 1, p)
  {
    CongDiff(x, 1, p);
    DivIntro(p, 1, p);
    if !Div(p, x - 1) {
      PrimeCoprime(p, x - 1);
    }
  }

  /** Over a prime: the base is not a multiple and neither power is 1. */
  lemma BasePassesOnPrime(p: int, f: int, a: int)
    requires Prime(p) && f > 0
    ensures (p - 1) / f >= 0
    ensures TestA(p, f, a)
            <==>
            && !Div(p, a)
            && !Cong(Pow(a, (p - 1) / f), 1, p)
            && !Cong(Pow(a, (p - 1) / 2), 1, p)
  {
    assert p > 1;
    hide TestA;
    BasePasses(p, f, a);
    CoprimeToPrime(Pow(a, (p - 1) / f), p);
    CoprimeToPrime(Pow(a, (p - 1) / 2), p);
    if Div(p, a) {
      PowerVanishes(p, a, p - 1);
    } else {
      Fermat(a, p);
    }
  }

  lemma PowerVanishes(p: int, a: int, e: nat)
    requires p > 1 && Div(p, a) && e > 0
    ensures !Cong(Pow(a, e), 1, p)
  {
    DivMul(p, a, Pow(a, e - 1));
    CongSmall(0, 0, p);
    if Cong(Pow(a, e), 1, p) {
      CongSmall(0, 1, p);
    }
  }

  // -------------------------------------- roots of a polynomial modulo a prime

  /** The polynomial with these coefficients, lowest first. */
  function Eval(c: seq<int>, x: int): int
  {
    if c == [] then 0 else c[0] + x * Eval(c[1..], x)
  }

  /** The quotient of the polynomial by `X - r`. */
  function Deflate(c: seq<int>, r: int): (q: seq<int>)
    requires |c| > 0
    ensures |q| == |c| - 1
    ensures |q| > 0 ==> q[|q| - 1] == c[|c| - 1]
  {
    if |c| == 1 then []
    else
      var t := c[1..];
      assert t[|t| - 1] == c[|c| - 1];
      [Eval(t, r)] + Deflate(t, r)
  }

  lemma {:induction false} Deflated(c: seq<int>, r: int, x: int)
    requires |c| > 0
    ensures Eval(c, x) - Eval(c, r) == (x - r) * Eval(Deflate(c, r), x)
  {
    if |c| > 1 {
      var t, q := c[1..], Deflate(c, r);
      Deflated(t, r, x);
      assert q[1..] == Deflate(t, r);
      assert Eval(q, x) == Eval(t, r) + x * Eval(Deflate(t, r), x);
      DeflatedAlgebra(x, r, Eval(t, x), Eval(t, r), Eval(Deflate(t, r), x));
    }
  }

  lemma DeflatedAlgebra(x: int, r: int, a: int, b: int, q: int)
    requires a - b == (x - r) * q
    ensures x * a - r * b == (x - r) * (b + x * q)
  {
    assert x * a - r * b == x * (a - b) + (x - r) * b;
    assert x * ((x - r) * q) == (x - r) * (x * q);
  }

  ghost predicate Roots(s: set<int>, c: seq<int>, p: int)
    requires p > 0
  {
    forall x :: x in s ==> 0 <= x < p && Cong(Eval(c, x), 0, p)
  }

  /** Lagrange: a polynomial whose highest coefficient does not vanish has at most as many roots as its degree. */
  lemma {:induction false} RootsBounded(s: set<int>, c: seq<int>, p: int)
    requires Prime(p) && |c| > 0 && !Div(p, c[|c| - 1]) && Roots(s, c, p)
    ensures |s| < |c|
    decreases |c|
  {
    if s != {} {
      var r := Member(s);
      if |c| == 1 {
        NoConstantRoot(c, r, p);
        assert false;
      } else {
        forall x | x in s - {r} ensures 0 <= x < p && Cong(Eval(Deflate(c, r), x), 0, p) {
          OtherRoot(c, r, x, p);
        }
        RootsBounded(s - {r}, Deflate(c, r), p);
      }
    }
  }

  lemma NoConstantRoot(c: seq<int>, r: int, p: int)
    requires p > 0 && |c| == 1 && !Div(p, c[0])
    ensures !Cong(Eval(c, r), 0, p)
  {
    assert Eval(c, r) == c[0] + r * 0;
    CongDiff(c[0], 0, p);
  }

  lemma OtherRoot(c: seq<int>, r: int, x: int, p: int)
    requires Prime(p) && |c| > 0 && 0 <= x < p && 0 <= r < p && x != r
    requires Cong(Eval(c, r), 0, p) && Cong(Eval(c, x), 0, p)
    ensures Cong(Eval(Deflate(c, r), x), 0, p)
  {
    hide Eval, Deflate;
    Deflated(c, r, x);
    var q := Eval(Deflate(c, r), x);
    CongDiff(Eval(c, r), 0, p);
    CongDiff(Eval(c, x), 0, p);
    CongDiff(q, 0, p);
    DivSum(p, Eval(c, x), Eval(c, r));
    if Div(p, x - r) {
      CongDiff(x, r, p);
      CongSmall(x, r, p);
      assert false;
    }
    Euclid(p, x - r, q);
  }

  function Monomial(d: nat): (c: seq<int>)
    ensures |c| == d + 1 && c[d] == 1
  {
    if d == 0 then [1] else [0] + Monomial(d - 1)
  }

  lemma {:induction false} MonomialValue(d: nat, x: int)
    ensures Eval(Monomial(d), x) == Pow(x, d)
  {
    if d > 0 {
      MonomialValue(d - 1, x);
      assert Monomial(d)[1..] == Monomial(d - 1);
    }
  }

  /** At most `d` numbers below a prime have a `d`-th power of 1. */
  lemma FewUnitPowers(s: set<int>, d: nat, p: int)
    requires Prime(p) && d > 0
    requires forall x :: x in s ==> 0 <= x < p && Cong(Pow(x, d), 1, p)
    ensures |s| <= d
  {
    var c := Monomial(d)[0 := -1];
    assert c[d] == 1 && 1 % p == 1;
    forall x | x in s ensures 0 <= x < p && Cong(Eval(c, x), 0, p) {
      MonomialValue(d, x);
      assert c[1..] == Monomial(d)[1..];
      assert Monomial(d)[0] == 0;
      assert Eval(c, x) == Pow(x, d) - 1;
      CongDiff(Pow(x, d), 1, p);
      CongDiff(Pow(x, d) - 1, 0, p);
    }
    RootsBounded(s, c, p);
  }

  // ------------------------------------------------------------ a base exists

  function Bases(p: int): (s: set<int>)
    ensures forall x :: x in s <==> 1 <= x < p
  {
    if p <= 1 then {} else Bases(p - 1) + {p - 1}
  }

  lemma {:induction false} BasesCount(p: int)
    requires p >= 1
    ensures |Bases(p)| == p - 1
  {
    if p > 1 {
      BasesCount(p - 1);
    }
  }

  /** The residues whose power to `e` is 1. */
  ghost function UnitsAt(p: int, e: nat): set<int>
    requires p > 0
  {
    set x | x in Bases(p) && Cong(Pow(x, e), 1, p)
  }

  /** An odd divisor of `p - 1` leaves a cofactor that is at most a third and, like `p - 1`, even. */
  lemma Thirds(p: int, f: int)
    requires p > 1 && p % 2 == 1 && f > 2 && f % 2 == 1 && Div(f, p - 1)
    ensures var e := (p - 1) / f; e > 0 && e % 2 == 0 && 3 * e <= p - 1
  {
    var e := (p - 1) / f;
    DivExact(f, p - 1);
    DivCofactor(f, p - 1);
    MulMonotone(3, f, e);
    if e % 2 == 1 {
      OddTimesOdd(f, e);
    }
  }

  lemma OddTimesOdd(x: int, y: int)
    requires x % 2 == 1 && y % 2 == 1
    ensures (x * y) % 2 == 1
  {
    var k := x / 2;
    assert x * y == 2 * (k * y) + y;
    DivIntro(2, k * y, 2 * (k * y));
  }

  /** Even powers of -1 are 1, so neither 1 nor `p - 1` can pass. */
  lemma EndsFail(p: int, e: nat)
    requires p > 1 && e % 2 == 0
    ensures Cong(Pow(1, e), 1, p) && Cong(Pow(p - 1, e), 1, p)
  {
    PowOne(e);
    DivIntro(p, 1, p);
    CongDiff(p - 1, -1, p);
    CongPow(p - 1, -1, e, p);
    PowSquare(-1);
    PowMul(-1, 2, e / 2);
    PowOne(e / 2);
    assert Pow(-1, e) == 1;
  }

  /** For a prime and an odd factor of `p - 1`, some base from 2 to `p - 2` passes the test. */
  lemma BaseExists(p: int, f: int) returns (a: int)
    requires Prime(p) && p % 2 == 1 && f > 2 && f % 2 == 1 && Div(f, p - 1)
    ensures 2 <= a < p - 1 && TestA(p, f, a)
  {
    Thirds(p, f);
    var e, h := (p - 1) / f, (p - 1) / 2;
    var bad := UnitsAt(p, e) + UnitsAt(p, h);
    BasesCount(p);
    FewUnitPowers(UnitsAt(p, e), e, p);
    FewUnitPowers(UnitsAt(p, h), h, p);
    assert |bad| <= |UnitsAt(p, e)| + |UnitsAt(p, h)|;
    assert Bases(p) * bad == bad;
    a := Member(Bases(p) - bad);
    EndsFail(p, e);
    CongSmall(a, a, p);
    if Div(p, a) {
      DivBound(p, a);
    }
    BasePassesOnPrime(p, f, a);
  }

  /** So the search for a base never comes back empty on a prime. */
  lemma LeastBaseFound(p: int, f: int)
    requires Prime(p) && p % 2 == 1 && f > 2 && f % 2 == 1 && Div(f, p - 1)
    ensures LeastBase(p, f, 2).Some?
  {
    var a := BaseExists(p, f);
  }

  /** A step on a prime fails exactly when none of the odd prime powers of `p - 1` passes the size and square tests. */
  lemma StepFailsExactly(p: int, factor: int -> seq<Factor>)
    requires Factors(factor) && Prime(p) && p > 2 && p % 2 == 1
    ensures Step(p, factor).None?
            <==>
            NoneTakeable(p, factor(p - 1))
  {
    var fs := factor(p - 1);
    FactorsOfEven(p, factor);
    var r := FirstFactor(p, fs, fs[0].power, 1);
    if r.Some? {
      var i := r.value;
      var u, v := SplitOff(p - 1, fs, i);
      FactorDivides(p, fs, i);
      OddPrime(fs[i].prime);
      LeastBaseFound(p, fs[i].prime);
    }
  }

  /** Every odd prime power in the factorization fails the size or the square test. */
  ghost predicate NoneTakeable(p: int, fs: seq<Factor>)
  {
    forall i :: 1 <= i < |fs| ==> fs[i].prime > 0 && TestF(p, fs[i].prime, fs[i].power, fs[0].power).None?
  }

  lemma FactorDivides(p: int, fs: seq<Factor>, i: nat)
    requires p > 1 && PrimePowers(fs) && Expand(fs) == p - 1 && i < |fs|
    ensures fs[i].prime > 1 && Div(fs[i].prime, p - 1)
  {
    var q, n := fs[i].prime, fs[i].power;
    assert Prime(q);
    ExpandRemove(fs, i);
    DivPow(q, n);
    DivMul(q, Pow(q, n), Expand(fs[..i] + fs[i + 1..]));
  }
}
