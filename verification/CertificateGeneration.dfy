/** Building Pocklington certificates and the nonce search (rsa/src/hash_to_prime/pocklington.rs). */
module CertificateGeneration {
  import opened Arithmetic
  import opened MillerRabin
  import opened Outcomes
  import opened Pocklington
  import opened Primes

  // ------------------------------------------------------ the factoring oracle

  datatype Factor = Factor(prime: int, power: nat)

  function Expand(fs: seq<Factor>): int
  {
    if fs == [] then 1 else Pow(fs[0].prime, fs[0].power) * Expand(fs[1..])
  }

  ghost predicate PrimePowers(fs: seq<Factor>)
  {
    && (forall i :: 0 <= i < |fs| ==> Prime(fs[i].prime) && fs[i].power >= 1)
    && (forall i, j :: 0 <= i < j < |fs| ==> fs[i].prime < fs[j].prime)
  }

  /** `factor(n)` is the sorted factorization of every `n >= 1`. */
  ghost predicate Factors(factor: int -> seq<Factor>)
  {
    forall n :: n >= 1 ==> PrimePowers(factor(n)) && Expand(factor(n)) == n
  }

  lemma {:induction false} ExpandRemove(fs: seq<Factor>, i: nat)
    requires i < |fs|
    ensures Expand(fs) == Pow(fs[i].prime, fs[i].power) * Expand(fs[..i] + fs[i + 1..])
  {
    if i == 0 {
      assert fs[..0] + fs[1..] == fs[1..];
    } else {
      var rest := fs[1..];
      ExpandRemove(rest, i - 1);
      var without := fs[..i] + fs[i + 1..];
      assert without[1..] == rest[..i - 1] + rest[i..];
      var a, b, c := Pow(fs[0].prime, fs[0].power), Pow(fs[i].prime, fs[i].power), Expand(without[1..]);
      assert Expand(without) == a * c;
      assert Expand(fs) == a * (b * c);
      SwapFactors(a, b, c);
    }
  }

  lemma SwapFactors(a: int, b: int, c: int)
    ensures a * (b * c) == b * (a * c)
  {
  }

  /** Every prime dividing the product occurs in the list. */
  lemma {:induction false} PrimeOccurs(q: int, fs: seq<Factor>) returns (i: nat)
    requires Prime(q) && PrimePowers(fs) && Div(q, Expand(fs))
    ensures i < |fs| && fs[i].prime == q
  {
    if fs == [] {
      DivBound(q, 1);
      assert false;
    } else {
      Euclid(q, Pow(fs[0].prime, fs[0].power), Expand(fs[1..]));
      if Div(q, Pow(fs[0].prime, fs[0].power)) {
        PrimeDividesPow(q, fs[0].prime, fs[0].power);
        PrimeDividesPrime(q, fs[0].prime);
        i := 0;
      } else {
        i := PrimeOccurs(q, fs[1..]);
        i := i + 1;
      }
    }
  }

  /** An even number's factorization starts with 2. */
  lemma TwoComesFirst(m: int, fs: seq<Factor>)
    requires m >= 1 && m % 2 == 0 && PrimePowers(fs) && Expand(fs) == m
    ensures |fs| > 0 && fs[0].prime == 2
  {
    TwoIsPrime();
    assert Div(2, m);
    var i := PrimeOccurs(2, fs);
    assert i == 0;
  }

  lemma {:induction false} ExpandPositive(fs: seq<Factor>)
    requires PrimePowers(fs)
    ensures Expand(fs) > 0
  {
    if fs != [] {
      ExpandPositive(fs[1..]);
      PowPositive(fs[0].prime, fs[0].power);
      MulPositive(Pow(fs[0].prime, fs[0].power), Expand(fs[1..]));
    }
  }

  function Others(fs: seq<Factor>, i: nat): seq<Factor>
    requires 1 <= i < |fs|
  {
    (fs[..i] + fs[i + 1..])[1..]
  }

  lemma OthersProduct(fs: seq<Factor>, i: nat)
    requires 1 <= i < |fs|
    ensures OthersOf(Others(fs, i), fs, i)
    ensures Expand(fs) == Pow(fs[i].prime, fs[i].power) * (Pow(fs[0].prime, fs[0].power) * Expand(Others(fs, i)))
  {
    hide Pow;
    ExpandRemove(fs, i);
    var rest := fs[..i] + fs[i + 1..];
    assert rest[0] == fs[0];
    assert rest != [];
    assert Expand(rest) == Pow(fs[0].prime, fs[0].power) * Expand(Others(fs, i));
    OthersListed(fs, i);
  }

  lemma OthersListed(fs: seq<Factor>, i: nat)
    requires 1 <= i < |fs|
    ensures OthersOf(Others(fs, i), fs, i)
  {
    var others := Others(fs, i);
    forall k | 0 <= k < |others| ensures others[k] == (if k + 1 < i then fs[k + 1] else fs[k + 2]) {
    }
  }

  lemma OthersCoprime(fs: seq<Factor>, i: nat, u: int, v: int)
    requires PrimePowers(fs) && 1 <= i < |fs| && fs[0].prime == 2 && fs[i].prime > 0
    requires u == Factored(fs[i].prime, fs[i].power, fs[0].power) && v == Expand(Others(fs, i))
    ensures Coprime(u, v)
  {
    OthersProduct(fs, i);
    assert Prime(fs[i].prime) && Prime(fs[0].prime);
    hide *;
    forall d | d > 1 && Div(d, u) ensures !Div(d, v) {
      var l := PrimeFactor(d);
      DivTrans(l, d, u);
      PrimesOfFactored(l, fs[i].prime, fs[i].power, fs[0].power);
      NotAmongOthers(l, Others(fs, i), fs, i);
      if Div(d, v) {
        DivTrans(l, d, v);
      }
    }
    CoprimeIntro(u, v);
  }

  /** Taking 2 and one odd prime power out of `m` leaves an odd cofactor coprime to what was taken. */
  lemma SplitOff(m: int, fs: seq<Factor>, i: nat) returns (u: int, v: int)
    requires m >= 1 && m % 2 == 0 && PrimePowers(fs) && Expand(fs) == m
    requires 1 <= i < |fs| && fs[0].prime == 2
    ensures 2 < fs[i].prime <= m
    ensures u == Factored(fs[i].prime, fs[i].power, fs[0].power) > 0
    ensures u * v == m && v > 0 && u % 2 == 0 && v % 2 == 1 && Coprime(u, v)
  {
    var f, n, n2 := fs[i].prime, fs[i].power, fs[0].power;
    assert fs[0].prime < f && n >= 1 && n2 >= 1;
    OthersProduct(fs, i);
    OthersArePrimePowers(Others(fs, i), fs, i);
    ExpandPositive(Others(fs, i));
    hide PrimePowers, Expand, Coprime, Prime;
    u, v := Factored(f, n, n2), Expand(Others(fs, i));
    OthersCoprime(fs, i, u, v);
    EvenFactored(f, n, n2);
    OddCofactor(u, v);
    OddPowerDivides(f, n, Pow(2, n2) * v, m);
    ThreeFactors(Pow(2, n2), Pow(f, n), v);
  }

  lemma ThreeFactors(a: int, b: int, c: int)
    ensures (a * b) * c == b * (a * c)
  {
  }

  lemma OddCofactor(u: int, v: int)
    requires Coprime(u, v) && Div(2, u)
    ensures v % 2 == 1
  {
    assert !Div(2, v);
  }

  lemma EvenFactored(f: int, n: nat, n2: nat)
    requires f > 0 && n2 >= 1
    ensures Factored(f, n, n2) % 2 == 0
  {
    DivPow(2, n2);
    DivMul(2, Pow(2, n2), Pow(f, n));
  }

  lemma OddPowerDivides(f: int, n: nat, k: int, m: int)
    requires f > 0 && n >= 1 && m == Pow(f, n) * k && m > 0
    ensures f <= m
  {
    DivPow(f, n);
    DivMul(f, Pow(f, n), k);
    DivBound(f, m);
  }

  /** `others` is `fs` without its first element and without element `i`. */
  ghost predicate OthersOf(others: seq<Factor>, fs: seq<Factor>, i: nat)
  {
    && 1 <= i < |fs| && |others| == |fs| - 2
    && forall k :: 0 <= k < |others| ==> others[k] == (if k + 1 < i then fs[k + 1] else fs[k + 2])
  }

  lemma OthersArePrimePowers(others: seq<Factor>, fs: seq<Factor>, i: nat)
    requires PrimePowers(fs) && OthersOf(others, fs, i)
    ensures PrimePowers(others)
  {
    hide Prime;
  }

  lemma NotAmongOthers(l: int, others: seq<Factor>, fs: seq<Factor>, i: nat)
    requires PrimePowers(fs) && OthersOf(others, fs, i) && Prime(l)
    requires l == fs[0].prime || l == fs[i].prime
    ensures !Div(l, Expand(others))
  {
    assert l > 1;
    hide Prime, Expand;
    OthersArePrimePowers(others, fs, i);
    if Div(l, Expand(others)) {
      var k := PrimeOccurs(l, others);
      assert false;
    }
  }

  // ------------------------------------------------------------- one step

  /** The first factor after the 2 whose prime power passes the size and square tests. */
  function FirstFactor(p: int, fs: seq<Factor>, n2: nat, i: nat): (r: Option<nat>)
    requires i <= |fs| && FactorsPositive(fs)
    ensures r.Some? ==> i <= r.value < |fs| && TestF(p, fs[r.value].prime, fs[r.value].power, n2).Some?
    ensures forall k :: i <= k < (if r.Some? then r.value else |fs|) ==> TestF(p, fs[k].prime, fs[k].power, n2).None?
    decreases |fs| - i
  {
    if i == |fs| then None
    else if TestF(p, fs[i].prime, fs[i].power, n2).Some? then Some(i)
    else FirstFactor(p, fs, n2, i + 1)
  }

  /** The least base from `a` up to `p - 2` that passes the test on `a`. */
  function LeastBase(p: int, f: int, a: int): (r: Option<int>)
    requires p >= 1 && f > 0
    ensures r.Some? ==> a <= r.value < p - 1 && TestA(p, f, r.value)
    ensures forall b :: a <= b < (if r.Some? then r.value else p - 1) ==> !TestA(p, f, b)
    decreases p - a
  {
    if a >= p - 1 then None
    else if TestA(p, f, a) then Some(a)
    else LeastBase(p, f, a + 1)
  }

  method FindBase(p: int, f: int) returns (r: Option<int>)
    requires p >= 1 && f > 0
    ensures r == LeastBase(p, f, 2)
  {
    var a := 2;
    while a < p - 1
      invariant LeastBase(p, f, 2) == LeastBase(p, f, a)
    {
      if TestA(p, f, a) {
        return Some(a);
      }
      a := a + 1;
    }
    return None;
  }

  ghost predicate FactorsPositive(fs: seq<Factor>)
  {
    forall k :: 0 <= k < |fs| ==> fs[k].prime > 0
  }

  /** The oracle's answer for `p - 1`: positive primes starting with 2. */
  lemma FactorsOfEven(p: int, factor: int -> seq<Factor>)
    requires Factors(factor) && p >= 3 && p % 2 == 1
    ensures var fs := factor(p - 1);
            PrimePowers(fs) && Expand(fs) == p - 1 && FactorsPositive(fs) && |fs| > 0 && fs[0].prime == 2
  {
    TwoComesFirst(p - 1, factor(p - 1));
  }

  /** A step fails only for want of a factor or of a base; a step that succeeds is accepted by the verifier. */
  function Step(p: int, factor: int -> seq<Factor>): (r: Option<StepCert>)
    requires Factors(factor) && p >= 3 && p % 2 == 1
    ensures r.Some? ==> Prime(r.value.f) && 2 < r.value.f < p && VerifyStep(p, r.value) == Done(true)
  {
    var fs := factor(p - 1);
    FactorsOfEven(p, factor);
    match FirstFactor(p, fs, fs[0].power, 1)
    case None => None
    case Some(i) =>
      match LeastBase(p, fs[i].prime, 2)
      case None => None
      case Some(a) =>
        var w := TestF(p, fs[i].prime, fs[i].power, fs[0].power).value;
        var bz := ExtendedGcd(w.u, w.v);
        var c := StepCert(fs[i].prime, fs[i].power, fs[0].power, a, bz.x, bz.y);
        GeneratedStep(p, fs, i, c);
        Some(c)
  }

  method PocklingtonStep(p: int, factor: int -> seq<Factor>) returns (r: Option<StepCert>)
    requires Factors(factor) && p >= 3 && p % 2 == 1
    ensures r == Step(p, factor)
  {
    var fs := factor(p - 1);
    FactorsOfEven(p, factor);
    match FirstFactor(p, fs, fs[0].power, 1)
    case None =>
      return None;
    case Some(i) =>
      var f, n, n2 := fs[i].prime, fs[i].power, fs[0].power;
      var w := TestF(p, f, n, n2).value;
      var bz := ExtendedGcd(w.u, w.v);
      var a := FindBase(p, f);
      if a.None? {
        return None;
      }
      return Some(StepCert(f, n, n2, a.value, bz.x, bz.y));
  }

  lemma GeneratedStep(p: int, fs: seq<Factor>, i: nat, c: StepCert)
    requires p >= 3 && p % 2 == 1 && PrimePowers(fs) && Expand(fs) == p - 1
    requires 1 <= i < |fs| && fs[0].prime == 2
    requires c.f == fs[i].prime && c.n == fs[i].power && c.n2 == fs[0].power && c.f > 0
    requires TestF(p, c.f, c.n, c.n2).Some? && TestA(p, c.f, c.a)
    requires var w := TestF(p, c.f, c.n, c.n2).value;
             var bz := ExtendedGcd(w.u, w.v); c.bu == bz.x && c.bv == bz.y
    ensures Prime(c.f) && 2 < c.f < p && VerifyStep(p, c) == Done(true)
  {
    hide Expand, Factored, Prime, SizeBound, SquareTest, Discriminant, DiscriminantRoot, TestA;
    var u, v := SplitOff(p - 1, fs, i);
    DivIntro(u, v, p - 1);
    var w := TestF(p, c.f, c.n, c.n2).value;
    assert w.u == u && w.v == v;
    CoprimeGcd(u, v);
  }

  lemma CoprimeGcd(u: int, v: int)
    requires u > 0 && Coprime(u, v)
    ensures ExtendedGcd(u, v).g == 1
  {
    var r := ExtendedGcd(u, v);
    assert !(r.g > 1);
  }

  // ------------------------------------------------------------- the whole path

  const STOP: int := 0x1_0000_0000

  /** Certifies downwards until the number fits in 32 bits; every generated chain passes the step checks. */
  function Path(p: int, factor: int -> seq<Factor>): (r: Option<seq<StepCert>>)
    requires Factors(factor) && (p > STOP ==> p % 2 == 1)
    ensures r.Some? ==> VerifySteps(p, r.value) == Done(true) && Terminal(p, r.value) <= STOP
    ensures r.Some? ==> (r.value == [] <==> p <= STOP)
    ensures r.Some? && r.value != [] ==> Prime(Terminal(p, r.value)) && Terminal(p, r.value) > 2
    decreases p
  {
    if p <= STOP then Some([])
    else match Step(p, factor)
      case None => None
      case Some(c) =>
        OddPrime(c.f);
        match Path(c.f, factor)
        case None => None
        case Some(rest) => PrependStep(p, c, rest); Some([c] + rest)
  }

  lemma PrependStep(p: int, c: StepCert, rest: seq<StepCert>)
    requires VerifyStep(p, c) == Done(true)
    ensures VerifySteps(p, [c] + rest) == VerifySteps(c.f, rest)
    ensures Terminal(p, [c] + rest) == Terminal(c.f, rest)
  {
    hide VerifyStep;
    assert ([c] + rest)[1..] == rest;
  }

  /** The path from `p` when `certs` already leads from `p` down to `q`. */
  ghost function PathAfter(certs: seq<StepCert>, q: int, factor: int -> seq<Factor>): Option<seq<StepCert>>
    requires Factors(factor) && (q > STOP ==> q % 2 == 1)
  {
    match Path(q, factor) case None => None case Some(rest) => Some(certs + rest)
  }

  lemma PathStep(certs: seq<StepCert>, q: int, factor: int -> seq<Factor>)
    requires Factors(factor) && q > STOP && q % 2 == 1
    ensures var c := Step(q, factor);
            && (c.None? ==> PathAfter(certs, q, factor) == None)
            && (c.Some? ==> c.value.f < q && c.value.f % 2 == 1 && PathAfter(certs, q, factor) == PathAfter(certs + [c.value], c.value.f, factor))
  {
    var c := Step(q, factor);
    if c.Some? {
      OddPrime(c.value.f);
      hide Step, VerifySteps, Factors;
      var r := Path(c.value.f, factor);
      assert r.Some? ==> certs + ([c.value] + r.value) == certs + [c.value] + r.value;
    }
  }

  method GeneratePath(p: int, factor: int -> seq<Factor>) returns (r: Option<seq<StepCert>>)
    requires Factors(factor) && (p > STOP ==> p % 2 == 1)
    ensures r == Path(p, factor)
  {
    var certs: seq<StepCert> := [];
    var q := p;
    assert PathAfter([], p, factor) == Path(p, factor) by {
      var r := Path(p, factor);
      assert r.Some? ==> [] + r.value == r.value;
    }
    while q > STOP
      invariant q > STOP ==> q % 2 == 1
      invariant Path(p, factor) == PathAfter(certs, q, factor)
      decreases q
    {
      PathStep(certs, q, factor);
      hide Path, PathAfter, Step, Factors;
      var c := PocklingtonStep(q, factor);
      if c.None? {
        return None;
      }
      q := c.value.f;
      certs := certs + [c.value];
    }
    assert certs + [] == certs;
    return Some(certs);
  }

  lemma OddPrime(q: int)
    requires Prime(q) && q > 2
    ensures q % 2 == 1
  {
    assert !Div(2, q);
  }

  /**
   * Which generated certificates the verifier accepts: those whose terminal prime is below 2^31
   * (the generator already stops at 2^32) and is not one of the test's own bases.
   */
  lemma GeneratedAccepted(p: int, certs: seq<StepCert>)
    requires VerifySteps(p, certs) == Done(true)
    requires Prime(Terminal(p, certs)) && Terminal(p, certs) > 2
    ensures var q := Terminal(p, certs);
            VerifyHashToPrime(p, p, certs) == Done(q < 0x8000_0000 && q != 7 && q != 61)
  {
    hide VerifySteps, MillerRabin32;
    MillerRabin32OnPrime(Terminal(p, certs));
  }

  /** The two bounds disagree: the generator returns an empty path for these numbers and the verifier refuses it. */
  lemma StopBoundMismatch(p: int, factor: int -> seq<Factor>)
    requires Factors(factor) && 0x8000_0000 <= p <= STOP
    ensures Path(p, factor) == Some([]) && VerifyHashToPrime(p, p, []) == Done(false)
  {
  }

  lemma StopBoundMismatchExample(factor: int -> seq<Factor>)
    requires Factors(factor)
    ensures Path(2147483659, factor) == Some([]) && VerifyHashToPrime(2147483659, 2147483659, []) == Done(false)
  {
    StopBoundMismatch(2147483659, factor);
  }

  // ------------------------------------------------------------ the nonce search

  /** Keeps the low `bits` bits of a digest and sets the highest of them. */
  function HashToInteger(digest: nat, bits: nat): (r: int)
    requires bits > 0
    ensures Pow(2, bits - 1) <= r < Pow(2, bits)
    ensures r % Pow(2, bits - 1) == digest % Pow(2, bits - 1)
  {
    var half := Pow(2, bits - 1);
    PowPositive(2, bits - 1);
    assert Pow(2, bits) == 2 * half;
    var low := digest % (2 * half);
    LowHalf(digest, half);
    if low < half then low + half else low
  }

  lemma LowHalf(d: nat, half: int)
    requires half > 0
    ensures var low := d % (2 * half);
            (low + half) % half == d % half && low % half == d % half
  {
    hide *;
    var low, q := d % (2 * half), d / (2 * half);
    assert d == (2 * half) * q + low;
    CongDiff(d, low, half);
    assert d - low == half * (2 * q);
    DivIntro(half, 2 * q, d - low);
    CongDiff(low + half, low, half);
    DivIntro(half, 1, half);
    FromCong(d, low, half);
    FromCong(low + half, low, half);
  }

  lemma FromCong(a: int, b: int, m: int)
    requires m > 0 && Cong(a, b, m)
    ensures a % m == b % m
  {
  }

  datatype SearchResult =
    | Found(p: int, certs: seq<StepCert>, nonce: nat)
    | NoValidNonce
    | Stopped

  const ROUNDS: nat := 30

  /** Passes all rounds and has a certificate path of at most `maxSteps` steps. */
  ghost predicate Usable(p: int, maxSteps: nat, factor: int -> seq<Factor>, bases: seq<int>)
    requires Factors(factor)
  {
    && MillerRabinWith(p, bases) == Done(true)
    && (p > STOP ==> p % 2 == 1)
    && Path(p, factor).Some? && |Path(p, factor).value| <= maxSteps
  }

  /** Tries one candidate: the rounds, then a path that is short enough. */
  method TryCandidate(p: int, maxSteps: nat, factor: int -> seq<Factor>, ps: seq<int>) returns (r: Outcome<Option<seq<StepCert>>>)
    requires Factors(factor) && |ps| > 0
    ensures r.Panic? <==> MillerRabinWith(p, ps) == Panic
    ensures r.Done? ==> (r.value.Some? <==> Usable(p, maxSteps, factor, ps))
    ensures r.Done? && r.value.Some? ==> Path(p, factor) == r.value
  {
    hide Pow, FirstPrimes, MillerRabinWith, Factors;
    var prp := RunRounds(p, ps);
    if prp.Panic? {
      return Panic;
    }
    if prp.value {
      PassedIsOdd(p, ps);
      var path := GeneratePath(p, factor);
      if path.Some? && |path.value| <= maxSteps {
        return Done(path);
      }
    }
    return Done(None);
  }

  /** The first usable nonce from `nonce` on, or none below `limit`; a candidate too small to test stops the search. */
  function Search(hash: nat -> int, limit: nat, maxSteps: nat, factor: int -> seq<Factor>, bases: seq<int>, nonce: nat): SearchResult
    requires Factors(factor) && |bases| > 0
    decreases limit - nonce
  {
    if nonce >= limit then NoValidNonce
    else
      match MillerRabinWith(hash(nonce), bases)
      case Panic => SearchResult.Stopped
      case Done(passed) =>
        PassedIsOdd(hash(nonce), bases);
        if !passed then Search(hash, limit, maxSteps, factor, bases, nonce + 1)
        else
          match Path(hash(nonce), factor)
          case Some(certs) =>
            if |certs| <= maxSteps then Found(hash(nonce), certs, nonce)
            else Search(hash, limit, maxSteps, factor, bases, nonce + 1)
          case None => Search(hash, limit, maxSteps, factor, bases, nonce + 1)
  }

  /** What a search tells of the nonces it went through. */
  lemma {:induction false} SearchOutcome(hash: nat -> int, limit: nat, maxSteps: nat, factor: int -> seq<Factor>, bases: seq<int>, nonce: nat)
    requires Factors(factor) && |bases| > 0
    ensures var r := Search(hash, limit, maxSteps, factor, bases, nonce);
      match r
      case Found(p, certs, n) =>
        && nonce <= n < limit && p == hash(n) > 1 && Usable(p, maxSteps, factor, bases) && Path(p, factor) == Some(certs)
        && (forall k: nat :: nonce <= k < n ==> !Usable(hash(k), maxSteps, factor, bases))
      case NoValidNonce => forall k: nat :: nonce <= k < limit ==> !Usable(hash(k), maxSteps, factor, bases)
      case Stopped => exists k: nat :: nonce <= k < limit && hash(k) <= 1
    decreases limit - nonce
  {
    hide Path, MillerRabinWith;
    if nonce < limit {
      var p := hash(nonce);
      RoundsPanic(p, bases);
      PassedIsOdd(p, bases);
      SearchOutcome(hash, limit, maxSteps, factor, bases, nonce + 1);
    }
  }

  /** The verifier's verdict on what the search finds is `ShortEnough`, for every hash. */
  lemma SearchVerdict(hash: nat -> int, limit: nat, maxSteps: nat, factor: int -> seq<Factor>, bases: seq<int>)
    requires Factors(factor) && FirstPrimes(bases) && |bases| == ROUNDS
    ensures match Search(hash, limit, maxSteps, factor, bases, 0)
      case Found(p, certs, n) => p > 1 && p == hash(n) && VerifyHashToPrime(hash(n), p, certs) == Done(ShortEnough(p, certs))
      case _ => true
  {
    hide Path, Search, MillerRabinWith, VerifyHashToPrime, ShortEnough, FirstPrimes, Factors;
    SearchOutcome(hash, limit, maxSteps, factor, bases, 0);
    match Search(hash, limit, maxSteps, factor, bases, 0)
    case Found(p, certs, n) =>
      assert Path(p, factor).Some?;
      FoundVerdict(p, certs, bases);
    case _ =>
  }

  /** The nonce loop finds the first usable nonce. */
  method HashToPrime(hash: nat -> int, nonceSize: nat, maxSteps: nat, factor: int -> seq<Factor>)
    returns (r: SearchResult)
    requires Factors(factor)
    ensures exists bases :: BasesFor(ROUNDS, bases) && Pow(2, nonceSize) >= 0 && r == Search(hash, Pow(2, nonceSize), maxSteps, factor, bases, 0)
  {
    var ps := SmallPrimes(ROUNDS);
    PowPositive(2, nonceSize);
    var limit := Pow(2, nonceSize);
    var nonce: nat := 0;
    assert BasesFor(ROUNDS, ps);
    hide Path, Pow, FirstPrimes, VerifyHashToPrime, Factors, BasesFor;
    while nonce < limit
      invariant nonce <= limit
      invariant Search(hash, limit, maxSteps, factor, ps, 0) == Search(hash, limit, maxSteps, factor, ps, nonce)
    {
      var attempt := TryCandidate(hash(nonce), maxSteps, factor, ps);
      match attempt {
        case Panic =>
          return SearchResult.Stopped;
        case Done(Some(certs)) =>
          return Found(hash(nonce), certs, nonce);
        case Done(None) =>
          nonce := nonce + 1;
      }
    }
    return NoValidNonce;
  }

  /** The exact condition under which the verifier accepts what the search returned. */
  predicate ShortEnough(p: int, certs: seq<StepCert>)
  {
    var q := Terminal(p, certs);
    q < 0x8000_0000 && (certs == [] || (q != 7 && q != 61))
  }

  lemma RoundsPanic(n: int, bases: seq<int>)
    requires |bases| > 0
    ensures MillerRabinWith(n, bases).Panic? ==> n <= 1
    ensures n <= 1 && n % 2 == 1 ==> MillerRabinWith(n, bases).Panic?
  {
    hide StrongProbablePrime;
    if n > 1 {
      NoPanic(n, bases);
    }
  }

  lemma {:induction false} NoPanic(n: int, bases: seq<int>)
    requires n > 1 || n % 2 == 0
    ensures MillerRabinWith(n, bases).Done?
  {
    hide StrongProbablePrime;
    if bases != [] {
      NoPanic(n, bases[1..]);
    }
  }

  lemma PassedIsOdd(n: int, bases: seq<int>)
    requires |bases| > 0
    ensures MillerRabinWith(n, bases) == Done(true) ==> n % 2 == 1 && n > 1
  {
    hide StrongProbablePrime;
  }

  lemma {:induction false} PassedEveryBase(n: int, bases: seq<int>, i: nat)
    requires MillerRabinWith(n, bases) == Done(true) && i < |bases|
    ensures Round(n, bases[i]) == Done(true)
  {
    hide Round;
    if i > 0 {
      PassedEveryBase(n, bases[1..], i - 1);
    }
  }

  /** The first thirty primes include 2, 7 and 61. */
  lemma ThirtyPrimes(ps: seq<int>)
    requires FirstPrimes(ps) && |ps| == ROUNDS
    ensures 2 in ps && 7 in ps && 61 in ps
  {
    BasesArePrime();
    hide FirstPrimes;
    SpreadOut(ps, 29);
    NoGaps(ps, 2);
    NoGaps(ps, 7);
    NoGaps(ps, 61);
  }

  lemma NoGaps(ps: seq<int>, q: int)
    requires FirstPrimes(ps) && Prime(q) && q <= ps[|ps| - 1]
    ensures q in ps
  {
  }

  /** Primes after the first are odd and 9 is not one of them. */
  lemma {:induction false} SpreadOut(ps: seq<int>, i: nat)
    requires FirstPrimes(ps) && i < |ps|
    ensures ps[i] >= 2 && (i >= 1 ==> ps[i] >= 2 * i + 1 && ps[i] % 2 == 1) && (i >= 4 ==> ps[i] >= 2 * i + 3)
  {
    assert Prime(ps[i]);
    if i > 0 {
      SpreadOut(ps, i - 1);
      assert ps[i - 1] < ps[i];
      OddPrime(ps[i]);
      NineIsComposite();
    }
  }

  lemma NineIsComposite()
    ensures !Prime(9)
  {
    assert Div(3, 9);
  }

  /** A number that passed all thirty rounds passes the three-base test. */
  lemma ThirtyImplyThree(n: int, bases: seq<int>)
    requires FirstPrimes(bases) && |bases| == ROUNDS && MillerRabinWith(n, bases) == Done(true)
    ensures MillerRabin32(n) == Done(true)
  {
    ThirtyPrimes(bases);
    hide FirstPrimes, Round;
    var i :| 0 <= i < |bases| && bases[i] == 2;
    var j :| 0 <= j < |bases| && bases[j] == 7;
    var k :| 0 <= k < |bases| && bases[k] == 61;
    PassedEveryBase(n, bases, i);
    PassedEveryBase(n, bases, j);
    PassedEveryBase(n, bases, k);
    ThreeRounds(n);
  }

  lemma ThreeRounds(n: int)
    requires Round(n, 2) == Done(true) && Round(n, 7) == Done(true) && Round(n, 61) == Done(true)
    ensures MillerRabin32(n) == Done(true)
  {
    hide Round;
    assert MillerRabinWith(n, []) == Done(true);
    assert [61][1..] == [] && [7, 61][1..] == [61] && [2, 7, 61][1..] == [7, 61];
    assert MillerRabinWith(n, [61]) == Done(true);
    assert MillerRabinWith(n, [7, 61]) == Done(true);
  }

  lemma FoundVerdict(p: int, certs: seq<StepCert>, bases: seq<int>)
    requires FirstPrimes(bases) && |bases| == ROUNDS && MillerRabinWith(p, bases) == Done(true)
    requires VerifySteps(p, certs) == Done(true)
    requires certs != [] ==> Prime(Terminal(p, certs)) && Terminal(p, certs) > 2
    ensures VerifyHashToPrime(p, p, certs) == Done(ShortEnough(p, certs))
  {
    if certs == [] {
      PassedIsOdd(p, bases);
      ThirtyImplyThree(p, bases);
      hide MillerRabin32;
    } else {
      GeneratedAccepted(p, certs);
    }
  }
}
