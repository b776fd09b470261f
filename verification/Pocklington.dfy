/** Certificates of primality by Pocklington steps (rsa/src/hash_to_prime/pocklington.rs). */
module Pocklington {
  import opened Arithmetic
  import opened MillerRabin
  import opened Outcomes
  import opened Primes

  /** The fields of a step certificate that the verifier reads. */
  datatype StepCert = StepCert(f: int, n: nat, n2: nat, a: int, bu: int, bv: int)

  /** What `TestF` computes from `p` and the factored part `u` of `p - 1`. */
  datatype Split = Split(u: int, v: int, s: int, root: nat)

  // ------------------------------------------------------------------ the tests

  /** Integer square root, rounded down. */
  function Sqrt(n: nat): (r: nat)
    ensures r * r <= n < (r + 1) * (r + 1)
  {
    if n == 0 then 0
    else
      var r := Sqrt(n - 1);
      if (r + 1) * (r + 1) <= n then r + 1 else r
  }

  function Factored(f: int, n: nat, n2: nat): (u: int)
    requires f > 0
    ensures u > 0
  {
    PowPositive(2, n2);
    PowPositive(f, n);
    MulPositive(Pow(2, n2), Pow(f, n));
    Pow(2, n2) * Pow(f, n)
  }

  /** The size bound `(u + 1)(2u^2 + (r - 1)u + 1)`. */
  function SizeBound(u: int, r: int): int
  {
    (u + 1) * (2 * u * u + (r - 1) * u + 1)
  }

  function Remainder(u: int, v: int): int
    requires u > 0
  {
    v % (2 * u)
  }

  function Quotient(u: int, v: int): int
    requires u > 0
  {
    v / (2 * u)
  }

  /** `r^2 - 8s`, whose being a square marks a composite number. */
  function Discriminant(u: int, v: int): int
    requires u > 0
  {
    Remainder(u, v) * Remainder(u, v) - 8 * Quotient(u, v)
  }

  function DiscriminantRoot(u: int, v: int): nat
    requires u > 0
  {
    var expr := Discriminant(u, v);
    if expr >= 0 then Sqrt(expr) else 0
  }

  predicate SquareTest(u: int, v: int)
    requires u > 0
  {
    var expr, root := Discriminant(u, v), DiscriminantRoot(u, v);
    Quotient(u, v) == 0 || (expr >= 0 && root * root != expr)
  }

  function TestF(p: int, f: int, n: nat, n2: nat): Option<Split>
    requires f > 0
  {
    var u := Factored(f, n, n2);
    var v := (p - 1) / u;
    if SizeBound(u, Remainder(u, v)) > p && SquareTest(u, v)
    then Some(Split(u, v, Quotient(u, v), DiscriminantRoot(u, v)))
    else None
  }

  predicate NoCommonFactor(x: int, p: int)
  {
    ExtendedGcd(x, p).g == 1
  }

  predicate TestA(p: int, f: int, a: int)
    requires p >= 1 && f > 0
  {
    && ModPow(a, p - 1, p) == 1
    && NoCommonFactor(ModPow(a, (p - 1) / f, p) - 1, p)
    && NoCommonFactor(ModPow(a, (p - 1) / 2, p) - 1, p)
  }

  predicate SplitTest(p: int, w: Split, c: StepCert)
  {
    w.u % 2 == 0 && w.v % 2 == 1 && w.u * w.v == p - 1 && c.bu * w.u + c.bv * w.v == 1
  }

  /** Both tests always run, so a zero divisor or a negative exponent in either stops the program. */
  function VerifyStep(p: int, c: StepCert): Outcome<bool>
  {
    if p < 1 || c.f == 0 || (c.f < 0 && p > 1) then Panic
    else if c.f < 0 then Done(false)
    else Done(StepPasses(p, c))
  }

  predicate StepPasses(p: int, c: StepCert)
    requires p >= 1 && c.f > 0
  {
    match TestF(p, c.f, c.n, c.n2)
    case None => false
    case Some(w) => TestA(p, c.f, c.a) && SplitTest(p, w, c)
  }

  /** Steps are checked in order, each against the factor certified by the one before; the first failure decides. */
  function VerifySteps(p: int, certs: seq<StepCert>): Outcome<bool>
    decreases |certs|
  {
    if certs == [] then Done(true)
    else match VerifyStep(p, certs[0])
      case Panic => Panic
      case Done(ok) => if ok then VerifySteps(certs[0].f, certs[1..]) else Done(false)
  }

  function Terminal(p: int, certs: seq<StepCert>): int
  {
    if certs == [] then p else certs[|certs| - 1].f
  }

  /** The last number must have fewer than 32 bits and pass the three-base test. */
  function BaseCheck(q: int): Outcome<bool>
  {
    if Abs(q) < 0x8000_0000 then MillerRabin32(q) else Done(false)
  }

  function VerifyHashToPrime(hashed: int, p: int, certs: seq<StepCert>): Outcome<bool>
  {
    match VerifySteps(hashed, certs)
    case Panic => Panic
    case Done(steps) =>
      match BaseCheck(Terminal(hashed, certs))
      case Panic => Panic
      case Done(base) => Done(hashed == p && steps && base)
  }

  // ----------------------------------------------------- soundness of one step

  /** The only primes dividing `2^n2 * f^n` are 2 and `f`. */
  lemma PrimesOfFactored(q: int, f: int, n: nat, n2: nat)
    requires Prime(q) && Prime(f) && Div(q, Factored(f, n, n2))
    ensures q == 2 || q == f
  {
    Euclid(q, Pow(2, n2), Pow(f, n));
    TwoIsPrime();
    if Div(q, Pow(2, n2)) {
      PrimeDividesPow(q, 2, n2);
      PrimeDividesPrime(q, 2);
    } else {
      PrimeDividesPow(q, f, n);
      PrimeDividesPrime(q, f);
    }
  }

  /** If `a^e - 1` has no factor in common with `p`, then `a^e` is not 1 modulo any prime divisor of `p`. */
  lemma NotUnitAtDivisor(a: int, e: nat, p: int, q: int)
    requires p > 1 && Prime(q) && Div(q, p)
    requires NoCommonFactor(ModPow(a, e, p) - 1, p)
    ensures !Cong(Pow(a, e), 1, q)
  {
    if Cong(Pow(a, e), 1, q) {
      CongMod(Pow(a, e), p);
      CongDivisor(ModPow(a, e, p), Pow(a, e), q, p);
      CongDiff(ModPow(a, e, p), 1, q);
      var r := ExtendedGcd(ModPow(a, e, p) - 1, p);
      DivMul(q, ModPow(a, e, p) - 1, r.x);
      DivMul(q, p, r.y);
      DivSum(q, r.x * (ModPow(a, e, p) - 1), r.y * p);
      DivBound(q, 1);
      assert false;
    }
  }

  /** A prime `l` that divides `h`, where `g * h == p - 1`, leaves `g` a divisor of `(p - 1) / l`. */
  lemma DivisorSurvives(a: int, g: nat, h: nat, l: int, p: int, q: int)
    requires p > 1 && q > 1 && l > 1 && g * h == p - 1 && h > 0 && Div(l, h)
    requires Cong(Pow(a, g), 1, q)
    ensures (p - 1) / l >= 0 && Cong(Pow(a, (p - 1) / l), 1, q)
  {
    DivExact(l, h);
    DivBound(l, h);
    assert p - 1 == l * (g * (h / l));
    DivIntro(l, g * (h / l), p - 1);
    UnitMultiple(a, g, h / l, q);
  }

  /** Modulo a prime divisor `q` of `p`, the base is invertible and its `p - 1` power is 1. */
  lemma UnitAtDivisor(a: int, p: int, q: int)
    requires p > 1 && Prime(q) && Div(q, p) && ModPow(a, p - 1, p) == 1
    ensures Cong(Pow(a, p - 1), 1, q) && !Div(q, a)
  {
    CongMod(Pow(a, p - 1), p);
    CongDivisor(ModPow(a, p - 1, p), Pow(a, p - 1), q, p);
    if Div(q, a) {
      assert Pow(a, p - 1) == a * Pow(a, p - 2);
      DivMul(q, a, Pow(a, p - 2));
      DivModUnique(1, 0, q, 1);
      assert false;
    }
  }

  /** A prime of the factored part does not divide the cofactor `h` of an exponent `g` with `a^g == 1`. */
  lemma CofactorAvoids(p: int, c: StepCert, q: int, g: nat, h: nat, l: int)
    requires p > 1 && Prime(c.f) && TestA(p, c.f, c.a) && Prime(q) && Div(q, p)
    requires g * h == p - 1 && h > 0 && Cong(Pow(c.a, g), 1, q)
    requires l == 2 || l == c.f
    ensures !Div(l, h)
  {
    assert q > 1 && l > 1;
    hide ModPow, Pow, Prime, NoCommonFactor, Cong;
    if Div(l, h) {
      DivisorSurvives(c.a, g, h, l, p, q);
      NotUnitAtDivisor(c.a, (p - 1) / l, p, q);
      assert false;
    }
  }

  lemma CofactorCoprime(p: int, c: StepCert, u: int, q: int, g: nat, h: nat)
    requires p > 1 && Prime(c.f) && u == Factored(c.f, c.n, c.n2)
    requires TestA(p, c.f, c.a) && Prime(q) && Div(q, p)
    requires g * h == p - 1 && h > 0 && Cong(Pow(c.a, g), 1, q)
    ensures Coprime(u, h)
  {
    hide *;
    assert Coprime(u, h) by {
      forall d | d > 1 && Div(d, u) ensures !Div(d, h) {
        var l := PrimeFactor(d);
        DivTrans(l, d, u);
        PrimesOfFactored(l, c.f, c.n, c.n2);
        CofactorAvoids(p, c, q, g, h, l);
        if Div(d, h) {
          DivTrans(l, d, h);
        }
      }
      CoprimeIntro(u, h);
    }
  }

  lemma CoprimeIntro(a: int, b: int)
    requires forall d :: d > 1 && Div(d, a) ==> !Div(d, b)
    ensures Coprime(a, b)
  {
  }

  /** Every prime divisor of `p` is 1 modulo the factored part of `p - 1`. */
  lemma DivisorCongruent(p: int, c: StepCert, u: int, q: int)
    requires p > 1 && Prime(c.f) && u == Factored(c.f, c.n, c.n2)
    requires TestA(p, c.f, c.a) && Div(u, p - 1)
    requires Prime(q) && Div(q, p)
    ensures Div(u, q - 1)
  {
    assert q > 1;
    UnitAtDivisor(c.a, p, q);
    Fermat(c.a, q);
    hide *;
    var g := UnitExponents(c.a, q - 1, p - 1, q);
    var h := (p - 1) / g;
    DivExact(g, p - 1);
    DivCofactor(g, p - 1);
    CofactorCoprime(p, c, u, q, g, h);
    assert h * g == p - 1;
    Gauss(u, h, g);
    DivTrans(u, g, q - 1);
  }

  /** If `p` and its divisor `q` are 1 modulo `u`, so is the cofactor. */
  lemma CofactorCongruent(p: int, q: int, m: int, u: int)
    requires u > 0 && p == q * m && Div(u, p - 1) && Div(u, q - 1)
    ensures Div(u, m - 1)
  {
    DivMul(u, q - 1, m);
    assert (p - 1) - (q - 1) * m == m - 1;
    DivSum(u, p - 1, (q - 1) * m);
  }

  /** Expanding `(xu + 1)(yu + 1) == uv + 1` and cancelling `u`. */
  lemma ExpandFactors(x: int, y: int, u: int, v: int)
    requires u > 0 && (x * u + 1) * (y * u + 1) == u * v + 1
    ensures v == x * y * u + x + y
  {
    assert (x * u + 1) * (y * u + 1) == u * (x * y * u + x + y) + 1;
    assert u * (v - (x * y * u + x + y)) == 0;
    MultipleNearZero(u, v - (x * y * u + x + y));
  }

  lemma OddOddSum(x: int, y: int, u: int)
    requires u % 2 == 0 && (x * y * u + x + y) % 2 == 1
    ensures (x * y) % 2 == 0 && (x + y) % 2 == 1
  {
    DivMul(2, u, x * y);
    OddAfterEven(x * y * u, x + y);
    EvenProduct(x, y);
  }

  lemma OddAfterEven(t: int, z: int)
    requires t % 2 == 0 && (t + z) % 2 == 1
    ensures z % 2 == 1
  {
  }

  lemma EvenProduct(x: int, y: int)
    requires (x + y) % 2 == 1
    ensures (x * y) % 2 == 0
  {
    if x % 2 == 0 {
      DivMul(2, x, y);
    } else {
      DivMul(2, y, x);
    }
  }

  /** Reading off remainder and quotient of `v = 2u * (xy/2) + (x + y)` modulo `2u`. */
  lemma ReadRemainder(x: int, y: int, u: int, v: int)
    requires u > 0 && v == x * y * u + x + y && (x * y) % 2 == 0
    ensures Remainder(u, v) == (x + y) % (2 * u)
    ensures Quotient(u, v) == x * y / 2 + (x + y) / (2 * u)
  {
    var z, t := x * y / 2, (x + y) / (2 * u);
    assert x * y == 2 * z;
    assert v == 2 * u * z + (x + y);
    assert x + y == 2 * u * t + (x + y) % (2 * u);
    assert v == 2 * u * (z + t) + (x + y) % (2 * u);
    DivModUnique(v, z + t, 2 * u, (x + y) % (2 * u));
  }

  /** When `x + y` is at least `2u`, the product `(xu + 1)(yu + 1)` reaches the size bound. */
  lemma TooLarge(x: int, y: int, u: int, r: int)
    requires u > 0 && x >= 1 && y >= 1 && r >= 0 && x + y >= 2 * u + r
    ensures (x * u + 1) * (y * u + 1) >= SizeBound(u, r)
  {
    var w := u * u;
    var k := 2 * u + r;
    MulPositive(x - 1, y - 1);
    assert (x - 1) * (y - 1) == x * y - x - y + 1;
    MulPositive(u, u);
    MulMonotone(k - 1, x * y, w);
    MulMonotone(k, x + y, u);
    ExpandProduct(x, y, u);
    SizeBoundExpanded(u, r);
  }

  lemma ExpandProduct(x: int, y: int, u: int)
    ensures (x * u + 1) * (y * u + 1) == (x * y) * (u * u) + (x + y) * u + 1
  {
    assert (x * u) * (y * u) == (x * y) * (u * u);
  }

  lemma SizeBoundExpanded(u: int, r: int)
    ensures SizeBound(u, r) == (2 * u + r - 1) * (u * u) + (2 * u + r) * u + 1
  {
    var w, t := u * u, (r - 1) * u;
    assert SizeBound(u, r) == (u + 1) * (2 * w + t + 1);
    assert (u + 1) * (2 * w + t + 1) == 2 * (u * w) + u * t + u + 2 * w + t + 1;
    assert u * t == (r - 1) * w;
    assert (2 * u + r - 1) * w == 2 * (u * w) + (r - 1) * w;
    assert (2 * u + r) * u == 2 * w + t + u;
  }

  /** The difference `|x - y|` is the exact root when `x + y = r` and `xy = 2s`. */
  lemma SquareFromFactors(x: int, y: int, e: int)
    requires e == (x + y) * (x + y) - 4 * (x * y)
    ensures e >= 0 && Sqrt(e) * Sqrt(e) == e
  {
    assert e == (x - y) * (x - y);
    var d := Abs(x - y);
    assert d * d == e;
    MulPositive(d, d);
    SqrtOfSquare(d);
  }

  lemma SquareMonotone(a: int, b: int)
    requires 0 <= a <= b
    ensures a * a <= b * b
  {
    MulMonotone(a, b, a);
    MulMonotone(a, b, b);
  }

  lemma SqrtOfSquare(d: nat)
    ensures 0 <= d * d && Sqrt(d * d) == d
  {
    MulPositive(d, d);
    var r := Sqrt(d * d);
    hide *;
    if r < d {
      SquareMonotone(r + 1, d);
      assert false;
    }
    assert (d + 1) * (d + 1) > d * d;
    if r > d {
      SquareMonotone(d + 1, r);
      assert false;
    }
  }

  /** A proper factorization of `p` into numbers that are 1 modulo `u` contradicts the two size tests. */
  lemma FactorsAreSquare(p: int, x: int, y: int, u: int, v: int)
    requires u > 0 && x >= 1 && y >= 1
    requires u % 2 == 0 && v % 2 == 1
    requires p == u * v + 1 == (x * u + 1) * (y * u + 1)
    requires SizeBound(u, Remainder(u, v)) > p
    ensures !SquareTest(u, v) && Discriminant(u, v) >= 0
  {
    var r, t := Remainder(u, v), (x + y) / (2 * u);
    assert r >= 0;
    SumIsRemainder(p, x, y, u, v, r, t);
    MulPositive(x, y);
    assert Discriminant(u, v) == (x + y) * (x + y) - 4 * (x * y);
    hide SizeBound, Remainder, Quotient, Discriminant, Sqrt;
    SquareFromFactors(x, y, Discriminant(u, v));
  }

  lemma SumIsRemainder(p: int, x: int, y: int, u: int, v: int, r: int, t: int)
    requires u > 0 && x >= 1 && y >= 1
    requires u % 2 == 0 && v % 2 == 1
    requires p == u * v + 1 == (x * u + 1) * (y * u + 1)
    requires r == Remainder(u, v) >= 0 && t == (x + y) / (2 * u)
    requires SizeBound(u, r) > p
    ensures r == x + y && x * y == 2 * Quotient(u, v)
  {
    hide *;
    ExpandFactors(x, y, u, v);
    OddOddSum(x, y, u);
    ReadRemainder(x, y, u, v);
    SplitSum(x + y, u, r, t);
    if t >= 1 {
      TooLarge(x, y, u, r);
      assert false;
    }
    assert t == 0;
  }

  lemma SplitSum(z: int, u: int, r: int, t: int)
    requires u > 0 && z > 0 && t == z / (2 * u) && r == z % (2 * u)
    ensures t >= 0 && z >= 2 * u * t + r
    ensures t >= 1 ==> z >= 2 * u + r
    ensures t == 0 ==> z == r
  {
    assert z == (2 * u) * t + r;
    if t >= 1 {
      MulMonotone(1, t, 2 * u);
    }
  }

  /** What the verifier has established about the split of `p - 1` apart from the square test. */
  ghost predicate StepFacts(p: int, c: StepCert, u: int, v: int)
  {
    && p >= 1 && c.f > 0 && u == Factored(c.f, c.n, c.n2) && v == (p - 1) / u
    && SizeBound(u, Remainder(u, v)) > p
    && TestA(p, c.f, c.a)
    && u % 2 == 0 && v % 2 == 1 && u * v == p - 1
  }

  /**
   * The size bound is sharp: the bound is itself a composite number with both factors 1 modulo `u`
   * whose cofactor leaves the remainder `r`, so no larger bound would do.
   */
  lemma BoundIsSharp(u: int, r: int)
    requires u > 0 && u % 2 == 0 && 0 < r < 2 * u && r % 2 == 1
    ensures var q, d := SizeBound(u, r), (2 * u + r - 1) * u + 1;
            && q == (u + 1) * d && Div(u, u) && Div(u, d - 1) && 1 < u + 1 < q
            && Div(u, q - 1) && ((q - 1) / u) % 2 == 1 && Remainder(u, (q - 1) / u) == r
  {
    var y := 2 * u + r - 1;
    hide *;
    var q, v := SizeBound(u, r), y * u + 1 + y;
    BoundAsProduct(u, r, y, v);
    RemainderIs(u, v, y / 2 + 1, r);
    DivModUnique(v, (y / 2 + 1) * u + r / 2, 2, 1);
    DivIntro(u, 1, u);
    DivIntro(u, y, y * u);
    BoundCofactor(u, y, q, v);
  }

  lemma BoundCofactor(u: int, y: int, q: int, v: int)
    requires 0 < u <= y && v == y * u + 1 + y && q == u * v + 1
    ensures q > u + 1 && Div(u, q - 1) && (q - 1) / u == v
  {
    hide *;
    MulPositive(y, u);
    MulPositive(u, v);
    DivIntro(u, v, q - 1);
  }

  lemma RemainderIs(u: int, v: int, k: int, r: int)
    requires 0 <= r < 2 * u && v == (2 * u) * k + r
    ensures Remainder(u, v) == r
  {
    DivModUnique(v, k, 2 * u, r);
  }

  lemma BoundAsProduct(u: int, r: int, y: int, v: int)
    requires u % 2 == 0 && r % 2 == 1 && y == 2 * u + r - 1 && v == y * u + 1 + y
    ensures SizeBound(u, r) == (u + 1) * (y * u + 1) == u * v + 1
    ensures v == (2 * u) * (y / 2 + 1) + r == 2 * ((y / 2 + 1) * u + r / 2) + 1
  {
    BoundFactor(u, r, y);
    ProductOfOnes(u, y);
    hide *;
    var k, h := y / 2, r / 2;
    assert y == 2 * k && r == 2 * h + 1;
    HalvesOfBound(u, k, h, y, v);
  }

  lemma BoundFactor(u: int, r: int, y: int)
    requires y == 2 * u + r - 1
    ensures SizeBound(u, r) == (u + 1) * (y * u + 1)
  {
    assert y * u == 2 * u * u + (r - 1) * u;
  }

  lemma HalvesOfBound(u: int, k: int, h: int, y: int, v: int)
    requires y == 2 * k && y == 2 * u + 2 * h && v == y * u + 1 + y
    ensures v == (2 * u) * (k + 1) + 2 * h + 1 == 2 * ((k + 1) * u + h) + 1
  {
  }

  lemma ProductOfOnes(u: int, y: int)
    ensures (u + 1) * (y * u + 1) == u * (y * u + 1 + y) + 1
  {
  }

  /** A divisor that is 1 modulo `u` and is not 1 has the form `x*u + 1` with `x` positive. */
  lemma FormOfDivisor(q: int, u: int) returns (x: int)
    requires u > 0 && q > 1 && Div(u, q - 1)
    ensures x >= 1 && q == x * u + 1
  {
    DivExact(u, q - 1);
    DivBound(u, q - 1);
    x := (q - 1) / u;
  }

  /** With a prime factor certified and the other checks passed, a composite `p` fails the square test. */
  lemma CompositeFailsSquareTest(p: int, c: StepCert, u: int, v: int)
    requires Prime(c.f) && StepFacts(p, c, u, v) && !Prime(p)
    ensures !SquareTest(u, v) && Discriminant(u, v) >= 0
  {
    assert p > 1;
    var q := PrimeFactor(p);
    assert q > 1 && q != p;
    hide Factored, SizeBound, Remainder, TestA, SquareTest, Discriminant, Prime;
    DivIntro(u, v, p - 1);
    DivisorCongruent(p, c, u, q);
    DivExact(q, p);
    DivBound(q, p);
    var m := p / q;
    assert m != 1;
    CofactorCongruent(p, q, m, u);
    var x := FormOfDivisor(q, u);
    var y := FormOfDivisor(m, u);
    FactorsAreSquare(p, x, y, u, v);
  }

  /** Conversely a square discriminant with a non-zero quotient gives an explicit factorization. */
  lemma SquareGivesFactors(p: int, u: int, v: int)
    requires u > 0 && v > 0 && p == u * v + 1
    requires Quotient(u, v) != 0 && Discriminant(u, v) >= 0
    requires DiscriminantRoot(u, v) * DiscriminantRoot(u, v) == Discriminant(u, v)
    ensures !Prime(p)
  {
    var r, s, d := Remainder(u, v), Quotient(u, v), DiscriminantRoot(u, v);
    assert v == (2 * u) * s + r && 0 <= r < 2 * u;
    assert d * d == r * r - 8 * s;
    hide *;
    if s < 0 {
      MulMonotone(s, -1, 2 * u);
      assert false;
    }
    var x, y := RootsFromSquare(r, s, d);
    FactorsMultiply(x, y, u, s, v);
    ProperProduct(x, y, u, p);
  }

  lemma FactorsMultiply(x: int, y: int, u: int, s: int, v: int)
    requires x * y == 2 * s && v == (2 * u) * s + (x + y)
    ensures u * v + 1 == (x * u + 1) * (y * u + 1)
  {
    ExpandProduct(x, y, u);
    assert u * v == ((2 * s) * u) * u + (x + y) * u;
  }

  lemma RootsFromSquare(r: int, s: int, d: nat) returns (x: int, y: int)
    requires r >= 0 && s > 0 && d * d == r * r - 8 * s
    ensures x >= 1 && y >= 1 && x + y == r && x * y == 2 * s
  {
    SameParity(r, d);
    if d >= r {
      SquareMonotone(r, d);
      assert false;
    }
    x, y := (r + d) / 2, (r - d) / 2;
    assert x + y == r && x - y == d;
    assert 4 * (x * y) == (x + y) * (x + y) - (x - y) * (x - y);
  }

  lemma ProperProduct(x: int, y: int, u: int, p: int)
    requires x >= 1 && y >= 1 && u > 0 && p == (x * u + 1) * (y * u + 1)
    ensures !Prime(p)
  {
    MulPositive(x, u);
    MulPositive(y, u);
    var a, b := x * u + 1, y * u + 1;
    DivIntro(a, b, p);
    MulMonotone(2, b, a);
    assert a < p;
    assert Div(a, p);
  }

  lemma SameParity(r: int, d: int)
    requires (r * r - d * d) % 8 == 0
    ensures (r - d) % 2 == 0
  {
    var m := r - d;
    assert m * m == (r * r - d * d) - 2 * (d * m);
    TwoIsPrime();
    Euclid(2, m, m);
  }

  /**
   * The theorem behind a step: once the factored part comes from a prime `f` and the remaining checks hold,
   * the square test passes exactly for the primes whose quotient is zero or whose discriminant is not negative.
   */
  lemma SquareTestDecides(p: int, c: StepCert, u: int, v: int)
    requires Prime(c.f) && StepFacts(p, c, u, v)
    ensures SquareTest(u, v) <==> Prime(p) && (Quotient(u, v) == 0 || Discriminant(u, v) >= 0)
    ensures !SquareTest(u, v) && Discriminant(u, v) < 0 ==> Prime(p)
  {
    if !Prime(p) {
      CompositeFailsSquareTest(p, c, u, v);
    } else if !SquareTest(u, v) && Discriminant(u, v) >= 0 {
      assert v > 0 by { if v <= 0 { MulMonotone(v, 0, u); assert false; } }
      SquareGivesFactors(p, u, v);
      assert false;
    }
  }

  /**
   * Exactly when a step over a prime factor is accepted: `p` is prime, the discriminant is usable,
   * and the arithmetic facts and the Bezout witness of the certificate hold.
   */
  lemma StepExact(p: int, c: StepCert)
    requires Prime(c.f)
    ensures var u := Factored(c.f, c.n, c.n2);
            var v := (p - 1) / u;
            VerifyStep(p, c) == Done(true)
            <==>
            && Prime(p)
            && (Quotient(u, v) == 0 || Discriminant(u, v) >= 0)
            && StepFacts(p, c, u, v)
            && c.bu * u + c.bv * v == 1
  {
    var u := Factored(c.f, c.n, c.n2);
    var v := (p - 1) / u;
    if StepFacts(p, c, u, v) {
      SquareTestDecides(p, c, u, v);
    }
  }

  /** An accepted step transfers primality from the certified factor to `p`. */
  lemma StepSound(p: int, c: StepCert)
    requires Prime(c.f) && VerifyStep(p, c) == Done(true)
    ensures Prime(p)
  {
    StepExact(p, c);
  }

  // ---------------------------------------------------- soundness of the chain

  lemma {:induction false} ChainSound(p: int, certs: seq<StepCert>)
    requires VerifySteps(p, certs) == Done(true) && Prime(Terminal(p, certs))
    ensures Prime(p)
    ensures forall i :: 0 <= i < |certs| ==> Prime(certs[i].f)
    decreases |certs|
  {
    hide VerifyStep, Prime;
    if certs != [] {
      assert Terminal(certs[0].f, certs[1..]) == Terminal(p, certs);
      ChainSound(certs[0].f, certs[1..]);
      forall i | 0 <= i < |certs| ensures Prime(certs[i].f) {
        if i > 0 {
          assert certs[i] == certs[1..][i - 1];
        }
      }
      StepSound(p, certs[0]);
    }
  }

  /**
   * `verify_hash_to_prime` accepts only primes, for every hash value, claimed number and certificate,
   * provided the three-base test is right about the one terminal number below 2^31.
   */
  lemma AcceptedIsPrime(hashed: int, p: int, certs: seq<StepCert>)
    requires VerifyHashToPrime(hashed, p, certs) == Done(true)
    requires BaseCheck(Terminal(hashed, certs)) == Done(true) ==> Prime(Terminal(hashed, certs))
    ensures Prime(p) && p == hashed
    ensures forall i :: 0 <= i < |certs| ==> Prime(certs[i].f)
  {
    ChainSound(hashed, certs);
  }
}
