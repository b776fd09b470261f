/** The range proof: prover, verifier, and exactly when an honest proof is accepted (range_proofs/src/bulletproofs.rs). */
module RangeProof {
  import opened Arithmetic
  import opened InnerProduct
  import opened Outcomes
  import opened Primes
  import opened Vectors

  datatype Params = Params(g: seq<int>, h: seq<int>, u: int)

  datatype Pedersen = Pedersen(g: int, h: int)

  datatype Proof = Proof(commBits: int, commBlind: int, commLc1: int, commLc2: int,
                         tX: int, rTX: int, rAB: int, comms: seq<(int, int)>, a: int, b: int)

  /** The prover's random choices. */
  datatype Coins = Coins(rBits: int, blind: seq<int>, blindMinus: seq<int>, rBlind: int, rLc1: int, rLc2: int)

  predicate Sized(pp: Params, n: nat)
  {
    |pp.g| == |pp.h| == n && PowerOfTwo(n)
  }

  // -------------------------------------------------------------- transcript

  function Canon(p: int, v: seq<int>): seq<int>
    requires p > 0
  {
    seq(|v|, i requires 0 <= i < |v| => v[i] % p)
  }

  function ParamDigest(o: Oracle, p: int, ped: Pedersen, pp: Params): int
    requires p > 0
  {
    o.digest(Canon(p, [ped.g, ped.h] + pp.g + pp.h + [pp.u]))
  }

  function BitsDigest(o: Oracle, p: int, ped: Pedersen, pp: Params, comm: int, n: nat, commBits: int, commBlind: int): int
    requires p > 0
  {
    o.digest([ParamDigest(o, p, ped, pp), comm % p, n, commBits % p, commBlind % p])
  }

  function LcDigest(o: Oracle, p: int, aux: int, lc1: int, lc2: int): int
    requires p > 0
  {
    o.digest([aux, lc1 % p, lc2 % p])
  }

  function OpenDigest(o: Oracle, p: int, aux: int, tX: int, rTX: int, rAB: int): int
    requires p > 0
  {
    o.digest([aux, tX % p, rTX % p, rAB % p])
  }

  /** Everything the verifier derives from the transcript before the folding rounds. */
  datatype Challenge = Challenge(y: int, z: int, x: int, w: int, aux: int)

  function Derive(o: Oracle, p: int, ped: Pedersen, pp: Params, comm: int, n: nat, f: Proof): Challenge
    requires p > 0
  {
    var d1 := BitsDigest(o, p, ped, pp, comm, n, f.commBits, f.commBlind);
    var d2 := LcDigest(o, p, d1, f.commLc1, f.commLc2);
    var d3 := OpenDigest(o, p, d2, f.tX, f.rTX, f.rAB);
    Challenge(o.low(d1), o.high(d1), o.low(d2), o.low(d3), d3)
  }

  // ------------------------------------------------------------------ vectors

  /** The low `n` bits of `v`, least significant first. */
  function Bits(v: nat, n: nat): (r: seq<int>)
    ensures |r| == n && forall i :: 0 <= i < n ==> r[i] == 0 || r[i] == 1
  {
    if n == 0 then [] else [v % 2] + Bits(v / 2, n - 1)
  }

  function Minus(f: seq<int>, z: int): (r: seq<int>)
    ensures |r| == |f|
  {
    seq(|f|, i requires 0 <= i < |f| => f[i] - z)
  }

  /** `y^i * (f_i - 1 + z) + 2^i * z^2`. */
  function B0(f: seq<int>, yp: seq<int>, tp: seq<int>, z: int): (r: seq<int>)
    requires |f| == |yp| == |tp|
    ensures |r| == |f|
  {
    seq(|f|, i requires 0 <= i < |f| => yp[i] * (f[i] - 1 + z) + tp[i] * (z * z))
  }

  /** `z * y^i + z^2 * 2^i`. */
  function Shift(yp: seq<int>, tp: seq<int>, z: int): (r: seq<int>)
    requires |yp| == |tp|
    ensures |r| == |yp|
  {
    seq(|yp|, i requires 0 <= i < |yp| => z * yp[i] + (z * z) * tp[i])
  }

  // ------------------------------------------------------------------- prover

  /** The prover's vectors and scalars once `y`, `z` and then `x` are known. */
  function VecA(f: seq<int>, blind: seq<int>, z: int, x: int): (r: seq<int>)
    requires |f| == |blind|
    ensures |r| == |f|
  {
    Comb(Minus(f, z), x, blind)
  }

  function VecB(f: seq<int>, blindMinus: seq<int>, yp: seq<int>, tp: seq<int>, z: int, x: int): (r: seq<int>)
    requires |f| == |blindMinus| == |yp| == |tp|
    ensures |r| == |f|
  {
    Comb(B0(f, yp, tp, z), x, Times(blindMinus, yp))
  }

  function T1(a0: seq<int>, a1: seq<int>, b0: seq<int>, b1: seq<int>): int
    requires |a0| == |a1| == |b0| == |b1|
  {
    Dot(Comb(a0, 1, a1), Comb(b0, 1, b1)) - Dot(a0, b0) - Dot(a1, b1)
  }

  function CommitVectors(pp: Params, a: seq<int>, b: seq<int>, r: int): int
    requires |pp.g| == |pp.h| == |a| == |b|
  {
    Dot(a, pp.g) + Dot(b, pp.h) + pp.u * r
  }

  function PedCommit(ped: Pedersen, m: int, r: int): int
  {
    ped.g * m + ped.h * r
  }

  /** The proof apart from its folding rounds. */
  function Opened(o: Oracle, p: int, pp: Params, ped: Pedersen, comm: int, v: nat, opening: int, n: nat, k: Coins): Proof
    requires p > 0 && Sized(pp, n) && |k.blind| == |k.blindMinus| == n
  {
    var f := Bits(v, n);
    var commBits := CommitVectors(pp, f, Minus(f, 1), k.rBits);
    var commBlind := CommitVectors(pp, k.blind, k.blindMinus, k.rBlind);
    var d1 := BitsDigest(o, p, ped, pp, comm, n, commBits, commBlind);
    var y, z := o.low(d1), o.high(d1);
    var yp, tp := Powers(y, n), Powers(2, n);
    var a0, b0 := Minus(f, z), B0(f, yp, tp, z);
    var a1, b1 := k.blind, Times(k.blindMinus, yp);
    var t0, t1, t2 := Dot(a0, b0), T1(a0, a1, b0, b1), Dot(a1, b1);
    var lc1, lc2 := PedCommit(ped, t1, k.rLc1), PedCommit(ped, t2, k.rLc2);
    var x := o.low(LcDigest(o, p, d1, lc1, lc2));
    Proof(commBits, commBlind, lc1, lc2,
      t0 + t1 * x + t2 * (x * x),
      k.rLc2 * (x * x) + k.rLc1 * x + opening * (z * z),
      k.rBits + k.rBlind * x, [], 0, 0)
  }

  function ShiftedH(p: int, h: seq<int>, y: int): (r: seq<int>)
    ensures |r| == |h|
  {
    Times(Powers(Inverse(p, y), |h|), h)
  }

  /** The whole prover; a challenge without an inverse stops the program. */
  function ProveRange(o: Oracle, p: int, pp: Params, ped: Pedersen, comm: int, v: nat, opening: int, n: nat, k: Coins): Outcome<Proof>
    requires p > 0 && Sized(pp, n) && |k.blind| == |k.blindMinus| == n
  {
    var head := Opened(o, p, pp, ped, comm, v, opening, n, k);
    var c := Derive(o, p, ped, pp, comm, n, head);
    if !Unit(p, c.y) then Panic
    else
      var f, yp, tp := Bits(v, n), Powers(c.y, n), Powers(2, n);
      match Prove(o, p, c.aux, pp.g, ShiftedH(p, pp.h, c.y), VecA(f, k.blind, c.z, c.x),
                  VecB(f, k.blindMinus, yp, tp, c.z, c.x), pp.u * c.w)
      case Panic => Panic
      case Done(r) => Done(head.(comms := r.comms, a := r.a, b := r.b))
  }

  // ----------------------------------------------------------------- verifier

  function Delta(yp: seq<int>, tp: seq<int>, z: int): int
  {
    (z - z * z) * Sum(yp) - Sum(tp) * (z * z) * z
  }

  /** The linear-combination half of the final check. */
  function LinearCheck(ped: Pedersen, comm: int, f: Proof, x: int, z: int, delta: int): int
  {
    ped.g * (f.tX - delta) + ped.h * f.rTX - (z * z) * comm - x * f.commLc1 - (x * x) * f.commLc2
  }

  function GExponents(agg: seq<int>, a: int, z: int): (r: seq<int>)
    ensures |r| == |agg|
  {
    Comb(Scale(a, agg), z, Const(|agg|, 1))
  }

  function HExponents(agg: seq<int>, b: int, shift: seq<int>, yinv: seq<int>): (r: seq<int>)
    requires |agg| == |shift| == |yinv|
    ensures |r| == |agg|
  {
    Times(Comb(Scale(b, agg), -1, shift), yinv)
  }

  /** The inner-product half of the final check, as one multi-exponentiation with aggregated exponents `gAgg` and `hAgg`. */
  function MultiExp(pp: Params, f: Proof, c: Challenge, xs: seq<int>, ys: seq<int>, gAgg: seq<int>, hAgg: seq<int>, shift: seq<int>, yinv: seq<int>): int
    requires |xs| == |ys| == |f.comms| && |pp.g| == |gAgg| && |pp.h| == |hAgg| == |shift| == |yinv|
  {
    Dot(GExponents(gAgg, f.a, c.z), pp.g)
    + Dot(HExponents(hAgg, f.b, shift, yinv), pp.h)
    - Dot(xs, Lefts(f.comms)) - Dot(ys, Rights(f.comms))
    + pp.u * ((f.a * f.b) * c.w - (f.tX * c.w - f.rAB))
    - f.commBits - c.x * f.commBlind
  }

  function ProductCheck(pp: Params, f: Proof, c: Challenge, xs: seq<int>, ys: seq<int>, shift: seq<int>, yinv: seq<int>): int
    requires |xs| == |ys| == |f.comms| && |pp.g| == |pp.h| == |shift| == |yinv| == Pow(2, |xs|)
  {
    MultiExp(pp, f, c, xs, ys, Aggregate(ys), Aggregate(xs), shift, yinv)
  }

  /** The scalar that combines the two halves. */
  function Combiner(o: Oracle, p: int, aux: int, f: Proof): int
    requires p > 0
  {
    o.short([LastDigest(o, p, aux, f.comms), f.a % p, f.b % p])
  }

  /** Both halves together: zero means accepted. */
  predicate FinalCheck(p: int, combiner: int, linear: int, product: int)
    requires p > 0
  {
    (combiner * linear + product) % p == 0
  }

  /** A proof with the wrong number of rounds, or a challenge without an inverse, stops the program. */
  function VerifyRange(o: Oracle, p: int, pp: Params, ped: Pedersen, comm: int, n: nat, f: Proof): Outcome<bool>
    requires p > 0 && |pp.g| == |pp.h| == n
  {
    var c := Derive(o, p, ped, pp, comm, n, f);
    var xs := Challenges(o, p, c.aux, f.comms);
    if Pow(2, |f.comms|) != n || !Unit(p, c.y) || !AllUnits(p, xs) then Panic
    else
      var yp, tp := Powers(c.y, n), Powers(2, n);
      var linear := LinearCheck(ped, comm, f, c.x, c.z, Delta(yp, tp, c.z));
      var product := ProductCheck(pp, f, c, xs, Inverses(p, xs), Shift(yp, tp, c.z), Powers(Inverse(p, c.y), n));
      Done(FinalCheck(p, Combiner(o, p, c.aux, f), linear, product))
  }

  method Verify(o: Oracle, p: int, pp: Params, ped: Pedersen, comm: int, n: nat, f: Proof) returns (r: Outcome<bool>)
    requires p > 0 && |pp.g| == |pp.h| == n
    ensures r == VerifyRange(o, p, pp, ped, comm, n, f)
  {
    hide FinalCheck, LinearCheck, Delta, Combiner, Shift, MultiExp, Derive, Challenges, Inverses, Powers, Aggregate, Unit, AllUnits;
    var c := Derive(o, p, ped, pp, comm, n, f);
    var xs := Challenges(o, p, c.aux, f.comms);
    if Pow(2, |f.comms|) != n || !Unit(p, c.y) || !AllUnits(p, xs) {
      return Panic;
    }
    var yp := ScalarPowers(c.y, n);
    var tp := ScalarPowers(2, n);
    var yinv := ScalarPowers(Inverse(p, c.y), n);
    var ys := Inverses(p, xs);
    var gAgg := AggregateExponents(ys);
    var hAgg := AggregateExponents(xs);
    var linear := LinearCheck(ped, comm, f, c.x, c.z, Delta(yp, tp, c.z));
    var product := MultiExp(pp, f, c, xs, ys, gAgg, hAgg, Shift(yp, tp, c.z), yinv);
    return Done(FinalCheck(p, Combiner(o, p, c.aux, f), linear, product));
  }

  method ProveInRange(o: Oracle, p: int, pp: Params, ped: Pedersen, comm: int, v: nat, opening: int, n: nat, k: Coins)
    returns (r: Outcome<Proof>)
    requires p > 0 && Sized(pp, n) && |k.blind| == |k.blindMinus| == n
    ensures r == ProveRange(o, p, pp, ped, comm, v, opening, n, k)
  {
    var head := Opened(o, p, pp, ped, comm, v, opening, n, k);
    var c := Derive(o, p, ped, pp, comm, n, head);
    if !Unit(p, c.y) {
      return Panic;
    }
    var f := Bits(v, n);
    var yp := ScalarPowers(c.y, n);
    var tp := ScalarPowers(2, n);
    var yinv := ScalarPowers(Inverse(p, c.y), n);
    var arg := FoldingLoop(o, p, c.aux, pp.g, Times(yinv, pp.h), VecA(f, k.blind, c.z, c.x),
      VecB(f, k.blindMinus, yp, tp, c.z, c.x), pp.u * c.w);
    match arg
    case Panic => return Panic;
    case Done(a) => return Done(head.(comms := a.comms, a := a.a, b := a.b));
  }

  // ------------------------------- the verifier refines the recursive check

  /** The commitment from which a recursive verifier starts folding. */
  function Start(pp: Params, f: Proof, c: Challenge, shift: seq<int>, hs: seq<int>): int
    requires |shift| == |hs|
  {
    f.commBits + c.x * f.commBlind - c.z * Sum(pp.g) + Dot(shift, hs) - pp.u * f.rAB + (pp.u * c.w) * f.tX
  }

  lemma GPart(agg: seq<int>, a: int, z: int, g: seq<int>)
    requires |agg| == |g|
    ensures Dot(GExponents(agg, a, z), g) == Dot(agg, g) * a + z * Sum(g)
  {
    DotComb(Scale(a, agg), z, Const(|agg|, 1), g);
    DotScale(a, agg, g);
    DotConst(1, g);
    assert a * Dot(agg, g) == Dot(agg, g) * a;
  }

  lemma HPart(agg: seq<int>, b: int, shift: seq<int>, yinv: seq<int>, h: seq<int>)
    requires |agg| == |shift| == |yinv| == |h|
    ensures Dot(HExponents(agg, b, shift, yinv), h) == Dot(agg, Times(yinv, h)) * b - Dot(shift, Times(yinv, h))
  {
    var hs := Times(yinv, h);
    DotTimes(Comb(Scale(b, agg), -1, shift), yinv, h);
    DotComb(Scale(b, agg), -1, shift, hs);
    DotScale(b, agg, hs);
    assert b * Dot(agg, hs) == Dot(agg, hs) * b;
  }

  lemma UPart(u: int, w: int, a: int, b: int, t: int, r: int)
    ensures u * ((a * b) * w - (t * w - r)) == (a * b) * (u * w) - (u * w) * t + u * r
  {
    assert u * ((a * b) * w - (t * w - r)) == u * ((a * b) * w) - u * (t * w) + u * r;
    assert u * ((a * b) * w) == (a * b) * (u * w);
    assert u * (t * w) == (u * w) * t;
  }

  lemma ProductIsFlat(pp: Params, f: Proof, c: Challenge, xs: seq<int>, ys: seq<int>, shift: seq<int>, yinv: seq<int>)
    requires |xs| == |ys| == |f.comms| && |pp.g| == |pp.h| == |shift| == |yinv| == Pow(2, |xs|)
    ensures var hs := Times(yinv, pp.h);
            ProductCheck(pp, f, c, xs, ys, shift, yinv)
            == FlatResidual(pp.g, hs, Start(pp, f, c, shift, hs), f.comms, xs, ys, f.a, f.b, pp.u * c.w)
  {
    GPart(Aggregate(ys), f.a, c.z, pp.g);
    HPart(Aggregate(xs), f.b, shift, yinv, pp.h);
    UPart(pp.u, c.w, f.a, f.b, f.tX, f.rAB);
    hide Dot, Sum, Aggregate, GExponents, HExponents, Times, Lefts, Rights;
  }

  /** The verdict of a verifier that folds round by round instead of building one multi-exponentiation. */
  function VerifyRecursively(o: Oracle, p: int, pp: Params, ped: Pedersen, comm: int, n: nat, f: Proof): Outcome<bool>
    requires p > 0 && |pp.g| == |pp.h| == n
  {
    var c := Derive(o, p, ped, pp, comm, n, f);
    var xs := Challenges(o, p, c.aux, f.comms);
    if Pow(2, |f.comms|) != n || !Unit(p, c.y) || !AllUnits(p, xs) then Panic
    else
      var yp, tp := Powers(c.y, n), Powers(2, n);
      var hs := ShiftedH(p, pp.h, c.y);
      var shift := Shift(yp, tp, c.z);
      var linear := LinearCheck(ped, comm, f, c.x, c.z, Delta(yp, tp, c.z));
      var residual := RecursiveResidual(pp.g, hs, Start(pp, f, c, shift, hs), f.comms, xs, Inverses(p, xs), f.a, f.b, pp.u * c.w);
      Done(FinalCheck(p, Combiner(o, p, c.aux, f), linear, residual))
  }

  /** For every proof, honest or not, the single check decides exactly as the recursive verifier does. */
  lemma VerifierRefinesRecursion(o: Oracle, p: int, pp: Params, ped: Pedersen, comm: int, n: nat, f: Proof)
    requires p > 0 && |pp.g| == |pp.h| == n
    ensures VerifyRange(o, p, pp, ped, comm, n, f) == VerifyRecursively(o, p, pp, ped, comm, n, f)
  {
    hide FinalCheck, LinearCheck, Delta, Combiner, Shift, ProductCheck, Derive, Challenges, Inverses, Powers, Unit, AllUnits,
      Start, FlatResidual, RecursiveResidual, Times;
    var c := Derive(o, p, ped, pp, comm, n, f);
    var xs := Challenges(o, p, c.aux, f.comms);
    var shift := Shift(Powers(c.y, n), Powers(2, n), c.z);
    var hs := ShiftedH(p, pp.h, c.y);
    if Pow(2, |f.comms|) == n {
      ProductIsFlat(pp, f, c, xs, Inverses(p, xs), shift, Powers(Inverse(p, c.y), n));
      FlatIsRecursive(pp.g, hs, Start(pp, f, c, shift, hs), f.comms, xs, Inverses(p, xs), f.a, f.b, pp.u * c.w);
    }
  }

  // ---------------------------------------------------------- completeness

  /** Binary digits recombine to the low part of the number. */
  lemma {:induction false} BitsValue(v: nat, n: nat)
    ensures Pow(2, n) > 0 && Dot(Bits(v, n), Powers(2, n)) == v % Pow(2, n)
  {
    PowPositive(2, n);
    if n > 0 {
      BitsValue(v / 2, n - 1);
      PowPositive(2, n - 1);
      var m := Pow(2, n - 1);
      assert Powers(2, n)[0] == 1 && Powers(2, n)[1..] == Scale(2, Powers(2, n - 1));
      var tail := Bits(v / 2, n - 1);
      DotSymmetric(tail, Scale(2, Powers(2, n - 1)));
      DotScale(2, Powers(2, n - 1), tail);
      DotSymmetric(Powers(2, n - 1), tail);
      assert Dot(Bits(v, n), Powers(2, n)) == v % 2 + 2 * ((v / 2) % m);
      HalfRemainder(v, m);
    }
  }

  lemma HalfRemainder(v: nat, m: int)
    requires m > 0
    ensures v % 2 + 2 * ((v / 2) % m) == v % (2 * m)
  {
    var q, r := v / 2 / m, (v / 2) % m;
    assert v / 2 == m * q + r;
    assert v == (2 * m) * q + (v % 2 + 2 * r);
    DivModUnique(v, q, 2 * m, v % 2 + 2 * r);
  }

  lemma T0Entry(f: int, y: int, t: int, z: int)
    requires f == 0 || f == 1
    ensures (f - z) * (y * (f - 1 + z) + t * (z * z)) == T0Formula(z, z * z, z - z * z, f * t, y, t)
  {
    if f == 0 {
      assert (-z) * (y * (z - 1)) == (z - z * z) * y;
    } else {
      assert (1 - z) * (y * z) == (z - z * z) * y;
      assert (1 - z) * (t * (z * z)) == t * (z * z) - z * (t * (z * z));
    }
  }

  /** The constant coefficient of the prover's polynomial: `z^2 * v + delta`. */
  lemma {:induction false} T0Value(f: seq<int>, yp: seq<int>, tp: seq<int>, z: int)
    requires |f| == |yp| == |tp| && forall i :: 0 <= i < |f| ==> f[i] == 0 || f[i] == 1
    ensures Dot(Minus(f, z), B0(f, yp, tp, z)) == T0Formula(z, z * z, z - z * z, Dot(f, tp), Sum(yp), Sum(tp))
  {
    if f == [] {
      hide Dot, Sum;
      assert Dot([], []) == 0 && Sum([]) == 0 by { EmptyDot(); }
    } else {
      T0Value(f[1..], yp[1..], tp[1..], z);
      assert Minus(f, z)[1..] == Minus(f[1..], z);
      assert B0(f, yp, tp, z)[1..] == B0(f[1..], yp[1..], tp[1..], z);
      T0Entry(f[0], yp[0], tp[0], z);
      T0Step(z, z * z, z - z * z, f[0] * tp[0], Dot(f[1..], tp[1..]), yp[0], Sum(yp[1..]), tp[0], Sum(tp[1..]));
    }
  }

  lemma EmptyDot()
    ensures Dot([], []) == 0 && Sum([]) == 0
  {
  }

  function T0Formula(z: int, zz: int, k: int, a: int, c: int, e: int): int
  {
    zz * a + k * c - (e * zz) * z
  }

  lemma T0Step(z: int, zz: int, k: int, a: int, b: int, c: int, d: int, e: int, f: int)
    ensures T0Formula(z, zz, k, a, c, e) + T0Formula(z, zz, k, b, d, f) == T0Formula(z, zz, k, a + b, c + d, e + f)
  {
    assert ((e + f) * zz) * z == (e * zz) * z + (f * zz) * z;
  }

  lemma TXAlgebra(x: int, t0: int, t1: int, t2: int, c: int, d: int, whole: int)
    requires t1 == c + d && whole == t0 + x * c + x * d + (x * x) * t2
    ensures t0 + t1 * x + t2 * (x * x) == whole
  {
    assert t1 * x == x * c + x * d;
  }

  /** The evaluated polynomial is the inner product of the evaluated vectors. */
  lemma TXValue(a0: seq<int>, a1: seq<int>, b0: seq<int>, b1: seq<int>, x: int)
    requires |a0| == |a1| == |b0| == |b1|
    ensures Dot(a0, b0) + T1(a0, a1, b0, b1) * x + Dot(a1, b1) * (x * x) == Dot(Comb(a0, x, a1), Comb(b0, x, b1))
  {
    hide *;
    T1Crosses(a0, a1, b0, b1);
    DotFolded(a0, x, a1, b0, x, b1);
    TXAlgebra(x, Dot(a0, b0), T1(a0, a1, b0, b1), Dot(a1, b1), Dot(a0, b1), Dot(a1, b0), Dot(Comb(a0, x, a1), Comb(b0, x, b1)));
  }

  lemma T1Crosses(a0: seq<int>, a1: seq<int>, b0: seq<int>, b1: seq<int>)
    requires |a0| == |a1| == |b0| == |b1|
    ensures T1(a0, a1, b0, b1) == Dot(a0, b1) + Dot(a1, b0)
  {
    hide Dot, Comb;
    DotFolded(a0, 1, a1, b0, 1, b1);
  }

  /** The linear half, for a proof whose polynomial is opened honestly. */
  lemma LinearAlgebra(g: int, h: int, comm: int, x: int, z2: int, t0: int, t1: int, t2: int, r1: int, r2: int, open: int, delta: int, v: int)
    requires t0 == z2 * v + delta
    ensures g * (t0 + t1 * x + t2 * (x * x) - delta) + h * (r2 * (x * x) + r1 * x + open * z2)
            - z2 * comm - x * (g * t1 + h * r1) - (x * x) * (g * t2 + h * r2)
         == z2 * (g * v + h * open - comm)
  {
    var w := x * x;
    assert g * (t0 + t1 * x + t2 * w - delta) == g * (z2 * v) + g * (t1 * x) + g * (t2 * w);
    assert h * (r2 * w + r1 * x + open * z2) == h * (r2 * w) + h * (r1 * x) + h * (open * z2);
    assert x * (g * t1 + h * r1) == g * (t1 * x) + h * (r1 * x);
    assert w * (g * t2 + h * r2) == g * (t2 * w) + h * (r2 * w);
    assert z2 * (g * v + h * open - comm) == g * (z2 * v) + h * (open * z2) - z2 * comm;
  }

  lemma {:induction false} PowProduct(a: int, b: int, i: nat)
    ensures Pow(a, i) * Pow(b, i) == Pow(a * b, i)
  {
    if i > 0 {
      PowProduct(a, b, i - 1);
      Regroup(a, Pow(a, i - 1), b, Pow(b, i - 1));
    }
  }

  lemma Regroup(a: int, c: int, b: int, d: int)
    ensures (a * c) * (b * d) == (a * b) * (c * d)
  {
  }

  /** The powers of `y` and of its inverse cancel. */
  lemma InversePower(p: int, y: int, i: nat)
    requires Prime(p) && Unit(p, y)
    ensures Cong(Pow(y, i) * Pow(Inverse(p, y), i), 1, p)
  {
    InverseWorks(p, y);
    PowProduct(y, Inverse(p, y), i);
    CongPow(y * Inverse(p, y), 1, i, p);
    PowOne(i);
  }

  /** Undoing the shift of `h`: multiplying the shifted bases by the powers of `y` gives `h` back. */
  lemma UnshiftH(p: int, y: int, h: seq<int>)
    requires Prime(p) && Unit(p, y)
    ensures var u := Times(Powers(y, |h|), ShiftedH(p, h, y));
            forall i :: 0 <= i < |h| ==> Cong(u[i], h[i], p)
  {
    var u := Times(Powers(y, |h|), ShiftedH(p, h, y));
    forall i | 0 <= i < |h| ensures Cong(u[i], h[i], p) {
      InversePower(p, y, i);
      var a, b := Pow(y, i), Pow(Inverse(p, y), i);
      assert u[i] == a * (b * h[i]);
      Associate(a, b, h[i]);
      CongScale(h[i], a * b, 1, p);
    }
  }

  /** The blinded exponents of `h` before the `y` powers are applied. */
  function BlindedBits(f: seq<int>, blindMinus: seq<int>, x: int): (r: seq<int>)
    requires |f| == |blindMinus|
    ensures |r| == |f|
  {
    Comb(Minus(f, 1), x, blindMinus)
  }

  lemma VecBEntry(f: int, m: int, y: int, t: int, z: int, zz: int, x: int)
    ensures (y * (f - 1 + z) + t * zz) + x * (m * y) == (f - 1 + x * m) * y + 1 * (z * y + zz * t)
  {
    assert y * (f - 1 + z) == (f - 1) * y + z * y;
    assert x * (m * y) == (x * m) * y;
  }

  lemma VecBSplit(f: seq<int>, blindMinus: seq<int>, yp: seq<int>, tp: seq<int>, z: int, x: int)
    requires |f| == |blindMinus| == |yp| == |tp|
    ensures VecB(f, blindMinus, yp, tp, z, x) == Comb(Times(BlindedBits(f, blindMinus, x), yp), 1, Shift(yp, tp, z))
  {
    forall i | 0 <= i < |f| ensures VecB(f, blindMinus, yp, tp, z, x)[i] == Comb(Times(BlindedBits(f, blindMinus, x), yp), 1, Shift(yp, tp, z))[i] {
      VecBEntry(f[i], blindMinus[i], yp[i], tp[i], z, z * z, x);
    }
  }

  lemma UnshiftedDot(p: int, y: int, h: seq<int>, k: seq<int>)
    requires Prime(p) && Unit(p, y) && |h| == |k|
    ensures p > 0 && Cong(Dot(Times(k, Powers(y, |h|)), ShiftedH(p, h, y)), Dot(k, h), p)
  {
    var yp, hs := Powers(y, |h|), ShiftedH(p, h, y);
    var u := Times(yp, hs);
    assert p > 0;
    UnshiftH(p, y, h);
    DotCong(u, h, k, p);
    DotTimes(k, yp, hs);
    DotSymmetric(k, u);
    DotSymmetric(k, h);
  }

  /** The shifted bases applied to the prover's second vector. */
  lemma HonestH(p: int, h: seq<int>, y: int, f: seq<int>, blindMinus: seq<int>, tp: seq<int>, z: int, x: int)
    requires Prime(p) && Unit(p, y) && |h| == |f| == |blindMinus| == |tp|
    ensures var yp := Powers(y, |h|);
            var hs := ShiftedH(p, h, y);
            Cong(Dot(BlindedBits(f, blindMinus, x), h) + Dot(Shift(yp, tp, z), hs), Dot(hs, VecB(f, blindMinus, yp, tp, z, x)), p)
  {
    hide *;
    var yp, hs, k := Powers(y, |h|), ShiftedH(p, h, y), BlindedBits(f, blindMinus, x);
    var s, b := Shift(yp, tp, z), VecB(f, blindMinus, yp, tp, z, x);
    UnshiftedDot(p, y, h, k);
    VecBSplit(f, blindMinus, yp, tp, z, x);
    DotOfComb(b, Times(k, yp), s, hs);
    ReplaceTop(p, Dot(Times(k, yp), hs), Dot(k, h), Dot(s, hs), Dot(hs, b));
  }

  lemma DotOfComb(b: seq<int>, t: seq<int>, s: seq<int>, w: seq<int>)
    requires |t| == |s| == |w| && b == Comb(t, 1, s)
    ensures Dot(w, b) == Dot(t, w) + Dot(s, w)
  {
    DotComb(t, 1, s, w);
    DotSymmetric(w, b);
  }

  lemma ReplaceTop(p: int, top: int, same: int, rest: int, whole: int)
    requires p > 0 && Cong(top, same, p) && whole == top + rest
    ensures Cong(same + rest, whole, p)
  {
    CongAdd(top, same, rest, rest, p);
  }

  lemma MinusDot(f: seq<int>, z: int, g: seq<int>)
    requires |f| == |g|
    ensures Dot(Minus(f, z), g) == Dot(f, g) - z * Sum(g)
  {
    assert Minus(f, z) == Comb(f, -z, Const(|f|, 1));
    DotComb(f, -z, Const(|f|, 1), g);
    DotConst(1, g);
    NegatedProduct(z, Sum(g), Dot(Const(|f|, 1), g));
  }

  lemma NegatedProduct(z: int, s: int, t: int)
    requires t == 1 * s
    ensures (-z) * t == -(z * s)
  {
  }

  /** The first base vector applied to the prover's first vector. */
  lemma HonestG(g: seq<int>, f: seq<int>, blind: seq<int>, z: int, x: int)
    requires |g| == |f| == |blind|
    ensures Dot(g, VecA(f, blind, z, x)) == Dot(f, g) + x * Dot(blind, g) - z * Sum(g)
  {
    DotSymmetric(g, VecA(f, blind, z, x));
    DotComb(Minus(f, z), x, blind, g);
    MinusDot(f, z, g);
  }

  lemma StartAlgebra(fg: int, mh: int, u: int, r: int, x: int, bg: int, bh: int, rb: int, zs: int, sh: int, qt: int)
    ensures (fg + mh + u * r) + x * (bg + bh + u * rb) - zs + sh - u * (r + rb * x) + qt
         == (fg + x * bg - zs) + (mh + x * bh) + sh + qt
  {
    assert x * (bg + bh + u * rb) == x * bg + x * bh + u * (rb * x);
  }

  /** An honest proof starts the recursive check at a commitment to the prover's own vectors. */
  lemma HonestStart(p: int, pp: Params, f: seq<int>, k: Coins, c: Challenge, proof: Proof)
    requires Prime(p) && Unit(p, c.y) && |pp.g| == |pp.h| == |f| == |k.blind| == |k.blindMinus|
    requires proof.commBits == CommitVectors(pp, f, Minus(f, 1), k.rBits)
    requires proof.commBlind == CommitVectors(pp, k.blind, k.blindMinus, k.rBlind)
    requires proof.rAB == k.rBits + k.rBlind * c.x
    requires var yp, tp := Powers(c.y, |f|), Powers(2, |f|);
             proof.tX == Dot(VecA(f, k.blind, c.z, c.x), VecB(f, k.blindMinus, yp, tp, c.z, c.x))
    ensures var yp, tp := Powers(c.y, |f|), Powers(2, |f|);
            var hs := ShiftedH(p, pp.h, c.y);
            Cong(Start(pp, proof, c, Shift(yp, tp, c.z), hs),
                 Commitment(pp.g, hs, VecA(f, k.blind, c.z, c.x), VecB(f, k.blindMinus, yp, tp, c.z, c.x), pp.u * c.w), p)
  {
    var yp, tp := Powers(c.y, |f|), Powers(2, |f|);
    var hs, s := ShiftedH(p, pp.h, c.y), Shift(yp, tp, c.z);
    var a, b := VecA(f, k.blind, c.z, c.x), VecB(f, k.blindMinus, yp, tp, c.z, c.x);
    var q := pp.u * c.w;
    HonestG(pp.g, f, k.blind, c.z, c.x);
    HonestH(p, pp.h, c.y, f, k.blindMinus, tp, c.z, c.x);
    DotComb(Minus(f, 1), c.x, k.blindMinus, pp.h);
    StartAlgebra(Dot(f, pp.g), Dot(Minus(f, 1), pp.h), pp.u, k.rBits, c.x, Dot(k.blind, pp.g), Dot(k.blindMinus, pp.h),
      k.rBlind, c.z * Sum(pp.g), Dot(s, hs), q * proof.tX);
    var kb := BlindedBits(f, k.blindMinus, c.x);
    assert Dot(kb, pp.h) == Dot(Minus(f, 1), pp.h) + c.x * Dot(k.blindMinus, pp.h);
    assert Start(pp, proof, c, s, hs) == Dot(pp.g, a) + (Dot(kb, pp.h) + Dot(s, hs)) + q * proof.tX;
    assert Commitment(pp.g, hs, a, b, q) == Dot(pp.g, a) + Dot(hs, b) + Dot(a, b) * q;
    assert p > 0;
    assert Dot(a, b) * q == q * proof.tX;
    hide *;
    var rest := Dot(pp.g, a) + q * proof.tX;
    CongSame(rest, p);
    CongAdd(rest, rest, Dot(kb, pp.h) + Dot(s, hs), Dot(hs, b), p);
  }

  // ------------------------------------------------------- the honest verdict

  /** How far the commitment is from one to the low `n` bits of `v`. */
  function Gap(ped: Pedersen, comm: int, v: nat, opening: int, n: nat): int
  {
    PowPositive(2, n);
    PedCommit(ped, v % Pow(2, n), opening) - comm
  }

  function Weighted(z: int, gap: int): int
  {
    (z * z) * gap
  }

  /** The verdict on an honest proof: the weighted gap, scaled by the combiner, vanishes. */
  predicate Vanishes(p: int, s: int, z: int, gap: int)
    requires p > 0
  {
    Cong(s * Weighted(z, gap), 0, p)
  }

  lemma VanishesWhenZero(p: int, s: int, z: int, gap: int)
    requires p > 0 && Div(p, gap)
    ensures Vanishes(p, s, z, gap)
  {
    DivMul(p, gap, z * z);
    DivMul(p, Weighted(z, gap), s);
    CongDiff(s * Weighted(z, gap), 0, p);
  }

  lemma VanishesOnlyWhenZero(p: int, s: int, z: int, gap: int)
    requires Prime(p) && Unit(p, z) && Unit(p, s) && Vanishes(p, s, z, gap)
    ensures Div(p, gap)
  {
    CongDiff(s * Weighted(z, gap), 0, p);
    Euclid(p, s, Weighted(z, gap));
    Euclid(p, z * z, gap);
    if Div(p, z * z) {
      Euclid(p, z, z);
    }
  }

  lemma T0OfBits(v: nat, n: nat, yp: seq<int>, z: int)
    requires |yp| == n
    ensures Pow(2, n) > 0
    ensures Dot(Minus(Bits(v, n), z), B0(Bits(v, n), yp, Powers(2, n), z)) == (z * z) * (v % Pow(2, n)) + Delta(yp, Powers(2, n), z)
  {
    BitsValue(v, n);
    T0Value(Bits(v, n), yp, Powers(2, n), z);
    hide Bits, Minus, B0, Dot, Powers, Pow, Sum;
  }

  /** The scalars of an honest proof. */
  lemma HonestScalars(o: Oracle, p: int, pp: Params, ped: Pedersen, comm: int, v: nat, opening: int, n: nat, k: Coins)
    returns (t0: int, t1: int, t2: int)
    requires p > 0 && Sized(pp, n) && |k.blind| == |k.blindMinus| == n
    ensures var head := Opened(o, p, pp, ped, comm, v, opening, n, k);
            var c := Derive(o, p, ped, pp, comm, n, head);
            && t0 == Dot(Minus(Bits(v, n), c.z), B0(Bits(v, n), Powers(c.y, n), Powers(2, n), c.z))
            && head.commLc1 == PedCommit(ped, t1, k.rLc1) && head.commLc2 == PedCommit(ped, t2, k.rLc2)
            && head.tX == t0 + t1 * c.x + t2 * (c.x * c.x)
            && head.rTX == k.rLc2 * (c.x * c.x) + k.rLc1 * c.x + opening * (c.z * c.z)
  {
    var c := Derive(o, p, ped, pp, comm, n, Opened(o, p, pp, ped, comm, v, opening, n, k));
    var f, yp, tp := Bits(v, n), Powers(c.y, n), Powers(2, n);
    var a0, b0 := Minus(f, c.z), B0(f, yp, tp, c.z);
    var a1, b1 := k.blind, Times(k.blindMinus, yp);
    t0, t1, t2 := Dot(a0, b0), T1(a0, a1, b0, b1), Dot(a1, b1);
  }

  /** The linear half of the check of an honest proof, for any statement. */
  lemma HonestLinear(o: Oracle, p: int, pp: Params, ped: Pedersen, comm: int, v: nat, opening: int, n: nat, k: Coins)
    requires p > 0 && Sized(pp, n) && |k.blind| == |k.blindMinus| == n
    ensures var head := Opened(o, p, pp, ped, comm, v, opening, n, k);
            var c := Derive(o, p, ped, pp, comm, n, head);
            LinearCheck(ped, comm, head, c.x, c.z, Delta(Powers(c.y, n), Powers(2, n), c.z))
            == Weighted(c.z, Gap(ped, comm, v, opening, n))
  {
    hide *;
    var head := Opened(o, p, pp, ped, comm, v, opening, n, k);
    var c := Derive(o, p, ped, pp, comm, n, head);
    var yp, tp := Powers(c.y, n), Powers(2, n);
    var t0, t1, t2 := HonestScalars(o, p, pp, ped, comm, v, opening, n, k);
    T0OfBits(v, n, yp, c.z);
    HonestLinearValue(ped, comm, head, c.x, c.z, t0, t1, t2, k.rLc1, k.rLc2, opening, Delta(yp, tp, c.z), v, n);
  }

  lemma HonestLinearValue(ped: Pedersen, comm: int, head: Proof, x: int, z: int, t0: int, t1: int, t2: int, r1: int, r2: int,
                          opening: int, delta: int, v: nat, n: nat)
    requires head.commLc1 == PedCommit(ped, t1, r1) && head.commLc2 == PedCommit(ped, t2, r2)
    requires head.tX == t0 + t1 * x + t2 * (x * x)
    requires head.rTX == r2 * (x * x) + r1 * x + opening * (z * z)
    requires Pow(2, n) > 0 && t0 == (z * z) * (v % Pow(2, n)) + delta
    ensures LinearCheck(ped, comm, head, x, z, delta) == Weighted(z, Gap(ped, comm, v, opening, n))
  {
    hide Pow;
    LinearAlgebra(ped.g, ped.h, comm, x, z * z, t0, t1, t2, r1, r2, opening, delta, v % Pow(2, n));
  }

  /** The vectors behind an honest proof. */
  lemma HonestHead(o: Oracle, p: int, pp: Params, ped: Pedersen, comm: int, v: nat, opening: int, n: nat, k: Coins)
    requires p > 0 && Sized(pp, n) && |k.blind| == |k.blindMinus| == n
    ensures var head := Opened(o, p, pp, ped, comm, v, opening, n, k);
            var c := Derive(o, p, ped, pp, comm, n, head);
            var f, yp, tp := Bits(v, n), Powers(c.y, n), Powers(2, n);
            && head.commBits == CommitVectors(pp, f, Minus(f, 1), k.rBits)
            && head.commBlind == CommitVectors(pp, k.blind, k.blindMinus, k.rBlind)
            && head.rAB == k.rBits + k.rBlind * c.x
            && head.tX == Dot(VecA(f, k.blind, c.z, c.x), VecB(f, k.blindMinus, yp, tp, c.z, c.x))
  {
    var head := Opened(o, p, pp, ped, comm, v, opening, n, k);
    var c := Derive(o, p, ped, pp, comm, n, head);
    var f, yp, tp := Bits(v, n), Powers(c.y, n), Powers(2, n);
    TXValue(Minus(f, c.z), k.blind, B0(f, yp, tp, c.z), Times(k.blindMinus, yp), c.x);
  }

  lemma FinalAlgebra(p: int, s: int, linear: int, product: int)
    requires p > 0 && Cong(product, 0, p)
    ensures FinalCheck(p, s, linear, product) == Cong(s * linear, 0, p)
  {
    CongSame(s * linear, p);
    CongAdd(s * linear, s * linear, product, 0, p);
  }

  /** The product half of the check of an honest proof vanishes. */
  lemma HonestProduct(o: Oracle, p: int, pp: Params, ped: Pedersen, comm: int, v: nat, opening: int, n: nat, k: Coins)
    requires Prime(p) && Sized(pp, n) && |k.blind| == |k.blindMinus| == n
    requires ProveRange(o, p, pp, ped, comm, v, opening, n, k).Done?
    ensures var f := ProveRange(o, p, pp, ped, comm, v, opening, n, k).value;
            var c := Derive(o, p, ped, pp, comm, n, f);
            var xs := Challenges(o, p, c.aux, f.comms);
            && n == Pow(2, |f.comms|) && Unit(p, c.y) && AllUnits(p, xs)
            && Cong(ProductCheck(pp, f, c, xs, Inverses(p, xs), Shift(Powers(c.y, n), Powers(2, n), c.z), Powers(Inverse(p, c.y), n)), 0, p)
  {
    var head := Opened(o, p, pp, ped, comm, v, opening, n, k);
    var c := Derive(o, p, ped, pp, comm, n, head);
    var f := ProveRange(o, p, pp, ped, comm, v, opening, n, k).value;
    assert Derive(o, p, ped, pp, comm, n, f) == c;
    var bits, yp, tp := Bits(v, n), Powers(c.y, n), Powers(2, n);
    var hs, s := ShiftedH(p, pp.h, c.y), Shift(yp, tp, c.z);
    var a, b := VecA(bits, k.blind, c.z, c.x), VecB(bits, k.blindMinus, yp, tp, c.z, c.x);
    var q := pp.u * c.w;
    HonestHead(o, p, pp, ped, comm, v, opening, n, k);
    HonestStart(p, pp, bits, k, c, f);
    var start := Start(pp, f, c, s, hs);
    var r := Prove(o, p, c.aux, pp.g, hs, a, b, q).value;
    assert f.comms == r.comms && f.a == r.a && f.b == r.b;
    assert p > 0 && PowerOfTwo(n);
    assert hs == Times(Powers(Inverse(p, c.y), n), pp.h);
    ProverSatisfies(o, p, c.aux, pp.g, hs, a, b, q, start);
    var xs := Challenges(o, p, c.aux, f.comms);
    assert ResidualOf(o, p, c.aux, pp.g, hs, r, q, start)
        == RecursiveResidual(pp.g, hs, start, f.comms, xs, Inverses(p, xs), f.a, f.b, q);
    hide *;
    ProductIsFlat(pp, f, c, xs, Inverses(p, xs), s, Powers(Inverse(p, c.y), n));
    FlatIsRecursive(pp.g, hs, start, f.comms, xs, Inverses(p, xs), f.a, f.b, q);
  }

  /**
   * The exact verdict on an honestly produced proof, for every statement, every number of bits that is a
   * power of two, all coins and every transcript hash.
   */
  lemma HonestVerdict(o: Oracle, p: int, pp: Params, ped: Pedersen, comm: int, v: nat, opening: int, n: nat, k: Coins)
    requires Prime(p) && Sized(pp, n) && |k.blind| == |k.blindMinus| == n
    requires ProveRange(o, p, pp, ped, comm, v, opening, n, k).Done?
    ensures var f := ProveRange(o, p, pp, ped, comm, v, opening, n, k).value;
            var c := Derive(o, p, ped, pp, comm, n, f);
            && n == Pow(2, |f.comms|)
            && VerifyRange(o, p, pp, ped, comm, n, f)
               == Done(Vanishes(p, Combiner(o, p, c.aux, f), c.z, Gap(ped, comm, v, opening, n)))
  {
    assert |pp.g| == |pp.h| == n;
    hide *;
    PrimePositive(p);
    HonestLinear(o, p, pp, ped, comm, v, opening, n, k);
    HonestProduct(o, p, pp, ped, comm, v, opening, n, k);
    HeadAgrees(o, p, pp, ped, comm, v, opening, n, k);
    var f := ProveRange(o, p, pp, ped, comm, v, opening, n, k).value;
    var c := Derive(o, p, ped, pp, comm, n, f);
    var yp, tp := Powers(c.y, n), Powers(2, n);
    var linear := LinearCheck(ped, comm, f, c.x, c.z, Delta(yp, tp, c.z));
    var xs := Challenges(o, p, c.aux, f.comms);
    var product := ProductCheck(pp, f, c, xs, Inverses(p, xs), Shift(yp, tp, c.z), Powers(Inverse(p, c.y), n));
    FinalAlgebra(p, Combiner(o, p, c.aux, f), linear, product);
    VerdictUnfolds(o, p, pp, ped, comm, n, f, c, xs, linear, product);
    VanishesUnfolds(p, Combiner(o, p, c.aux, f), c.z, Gap(ped, comm, v, opening, n));
  }

  lemma PrimePositive(p: int)
    requires Prime(p)
    ensures p > 0
  {
  }

  lemma VanishesUnfolds(p: int, s: int, z: int, gap: int)
    requires p > 0
    ensures Vanishes(p, s, z, gap) == Cong(s * Weighted(z, gap), 0, p)
  {
  }

  lemma VerdictUnfolds(o: Oracle, p: int, pp: Params, ped: Pedersen, comm: int, n: nat, f: Proof, c: Challenge, xs: seq<int>, linear: int, product: int)
    requires p > 0 && Sized(pp, n) && n == Pow(2, |f.comms|)
    requires c == Derive(o, p, ped, pp, comm, n, f) && xs == Challenges(o, p, c.aux, f.comms)
    requires Unit(p, c.y) && AllUnits(p, xs)
    requires linear == LinearCheck(ped, comm, f, c.x, c.z, Delta(Powers(c.y, n), Powers(2, n), c.z))
    requires product == ProductCheck(pp, f, c, xs, Inverses(p, xs), Shift(Powers(c.y, n), Powers(2, n), c.z), Powers(Inverse(p, c.y), n))
    ensures VerifyRange(o, p, pp, ped, comm, n, f) == Done(FinalCheck(p, Combiner(o, p, c.aux, f), linear, product))
  {
    hide FinalCheck, LinearCheck, Delta, Combiner, Shift, ProductCheck, Derive, Challenges, Inverses, Powers, Unit, AllUnits;
  }

  /** The folding rounds do not change what is derived from, or checked of, the rest of the proof. */
  lemma HeadAgrees(o: Oracle, p: int, pp: Params, ped: Pedersen, comm: int, v: nat, opening: int, n: nat, k: Coins)
    requires p > 0 && Sized(pp, n) && |k.blind| == |k.blindMinus| == n
    requires ProveRange(o, p, pp, ped, comm, v, opening, n, k).Done?
    ensures var head := Opened(o, p, pp, ped, comm, v, opening, n, k);
            var f := ProveRange(o, p, pp, ped, comm, v, opening, n, k).value;
            var c := Derive(o, p, ped, pp, comm, n, head);
            var delta := Delta(Powers(c.y, n), Powers(2, n), c.z);
            && Derive(o, p, ped, pp, comm, n, f) == c
            && LinearCheck(ped, comm, f, c.x, c.z, delta) == LinearCheck(ped, comm, head, c.x, c.z, delta)
  {
    hide Opened, Delta, Powers, BitsDigest, LcDigest, OpenDigest, Prove, VecA, VecB, ShiftedH;
  }

  lemma GapOfStatement(p: int, ped: Pedersen, comm: int, v: nat, opening: int, n: nat)
    requires p > 0 && Pow(2, n) > 0
    ensures Div(p, Gap(ped, comm, v, opening, n)) <==> Cong(comm, PedCommit(ped, v % Pow(2, n), opening), p)
  {
    var k := PedCommit(ped, v % Pow(2, n), opening);
    hide PedCommit, Pow;
    CongDiff(k, comm, p);
  }

  /** Perfect completeness: a true statement is always accepted. */
  lemma Completeness(o: Oracle, p: int, pp: Params, ped: Pedersen, comm: int, v: nat, opening: int, n: nat, k: Coins)
    requires Prime(p) && Sized(pp, n) && |k.blind| == |k.blindMinus| == n
    requires v < Pow(2, n) && Cong(comm, PedCommit(ped, v, opening), p)
    requires ProveRange(o, p, pp, ped, comm, v, opening, n, k).Done?
    ensures var f := ProveRange(o, p, pp, ped, comm, v, opening, n, k).value;
            n == Pow(2, |f.comms|) && VerifyRange(o, p, pp, ped, comm, n, f) == Done(true)
  {
    assert p > 0;
    hide *;
    HonestVerdict(o, p, pp, ped, comm, v, opening, n, k);
    DivModUnique(v, 0, Pow(2, n), v);
    GapOfStatement(p, ped, comm, v, opening, n);
    var f := ProveRange(o, p, pp, ped, comm, v, opening, n, k).value;
    var c := Derive(o, p, ped, pp, comm, n, f);
    VanishesWhenZero(p, Combiner(o, p, c.aux, f), c.z, Gap(ped, comm, v, opening, n));
  }

  /** With non-zero challenges the verdict is exact: acceptance means the commitment opens to the low `n` bits of `v`. */
  lemma ExactVerdict(o: Oracle, p: int, pp: Params, ped: Pedersen, comm: int, v: nat, opening: int, n: nat, k: Coins)
    requires Prime(p) && Sized(pp, n) && |k.blind| == |k.blindMinus| == n
    requires ProveRange(o, p, pp, ped, comm, v, opening, n, k).Done?
    requires var f := ProveRange(o, p, pp, ped, comm, v, opening, n, k).value;
             var c := Derive(o, p, ped, pp, comm, n, f);
             Unit(p, c.z) && Unit(p, Combiner(o, p, c.aux, f))
    ensures var f := ProveRange(o, p, pp, ped, comm, v, opening, n, k).value;
            && n == Pow(2, |f.comms|) && Pow(2, n) > 0
            && (VerifyRange(o, p, pp, ped, comm, n, f) == Done(true) <==> Cong(comm, PedCommit(ped, v % Pow(2, n), opening), p))
  {
    assert p > 0;
    PowPositive(2, n);
    hide *;
    HonestVerdict(o, p, pp, ped, comm, v, opening, n, k);
    GapOfStatement(p, ped, comm, v, opening, n);
    var f := ProveRange(o, p, pp, ped, comm, v, opening, n, k).value;
    var c := Derive(o, p, ped, pp, comm, n, f);
    var s, gap := Combiner(o, p, c.aux, f), Gap(ped, comm, v, opening, n);
    if Div(p, gap) {
      VanishesWhenZero(p, s, c.z, gap);
    }
    if Vanishes(p, s, c.z, gap) {
      VanishesOnlyWhenZero(p, s, c.z, gap);
    }
  }

  /**
   * When the prover finishes: a prover that stops has drawn a challenge without an inverse, and one that finishes has
   * drawn none, so that the verifier finishes as well.
   */
  lemma ProverFinishes(o: Oracle, p: int, pp: Params, ped: Pedersen, comm: int, v: nat, opening: int, n: nat, k: Coins) returns (asked: seq<int>)
    requires Prime(p) && Sized(pp, n) && |k.blind| == |k.blindMinus| == n
    ensures p > 0
    ensures ProveRange(o, p, pp, ped, comm, v, opening, n, k).Panic? ==> !Unit(p, o.low(o.digest(asked)))
    ensures ProveRange(o, p, pp, ped, comm, v, opening, n, k).Done? ==>
      var f := ProveRange(o, p, pp, ped, comm, v, opening, n, k).value;
      var c := Derive(o, p, ped, pp, comm, n, f);
      Unit(p, c.y) && AllUnits(p, Challenges(o, p, c.aux, f.comms)) && VerifyRange(o, p, pp, ped, comm, n, f).Done?
  {
    var head := Opened(o, p, pp, ped, comm, v, opening, n, k);
    var c := Derive(o, p, ped, pp, comm, n, head);
    asked := [ParamDigest(o, p, ped, pp), comm % p, n, head.commBits % p, head.commBlind % p];
    assert c.y == o.low(o.digest(asked));
    if Unit(p, c.y) {
      var f, yp, tp := Bits(v, n), Powers(c.y, n), Powers(2, n);
      asked := LoopStops(o, p, c.aux, pp.g, ShiftedH(p, pp.h, c.y), VecA(f, k.blind, c.z, c.x),
                         VecB(f, k.blindMinus, yp, tp, c.z, c.x), pp.u * c.w);
    }
    hide *;
    if ProveRange(o, p, pp, ped, comm, v, opening, n, k).Done? {
      HonestVerdict(o, p, pp, ped, comm, v, opening, n, k);
      VerifierStops(o, p, pp, ped, comm, n, ProveRange(o, p, pp, ped, comm, v, opening, n, k).value);
    }
  }

  /** When the verifier finishes on a proof of any origin: with the right number of rounds and invertible challenges. */
  lemma VerifierStops(o: Oracle, p: int, pp: Params, ped: Pedersen, comm: int, n: nat, f: Proof)
    requires p > 0 && |pp.g| == |pp.h| == n
    ensures VerifyRange(o, p, pp, ped, comm, n, f).Done? <==>
      var c := Derive(o, p, ped, pp, comm, n, f);
      n == Pow(2, |f.comms|) && Unit(p, c.y) && AllUnits(p, Challenges(o, p, c.aux, f.comms))
  {
  }
}
