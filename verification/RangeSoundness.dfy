/**
 * What acceptance of a range proof means for proofs of any origin (range_proofs/src/bulletproofs.rs): the two
 * equations behind the single check, and the transcript that binds every part of a proof.
 */
module RangeSoundness {
  import opened Arithmetic
  import opened Outcomes
  import opened Primes
  import opened Vectors
  import opened InnerProduct
  import opened RangeProof

  // ------------------------------------------------------------- two equations

  /** The offset of the polynomial's constant coefficient, `(z - z^2) * <1, y^n> - z^3 * <1, 2^n>`. */
  function Offset(y: int, z: int, n: nat): int
  {
    (z - z * z) * Sum(Powers(y, n)) - (z * z * z) * Sum(Powers(2, n))
  }

  /** `tX` with blinding `rTX` opens the commitment that `comm` and the two coefficient commitments combine to. */
  predicate PolynomialOpened(p: int, ped: Pedersen, comm: int, n: nat, f: Proof, c: Challenge)
    requires p > 0
  {
    Cong(ped.g * f.tX + ped.h * f.rTX,
         (c.z * c.z) * comm + ped.g * Offset(c.y, c.z, n) + c.x * f.commLc1 + (c.x * c.x) * f.commLc2, p)
  }

  /** A commitment with every round's cross commitments absorbed. */
  function WithRounds(commitment: int, comms: seq<(int, int)>, xs: seq<int>, ys: seq<int>): int
    requires |comms| == |xs| == |ys|
    decreases |comms|
  {
    if comms == [] then commitment
    else WithRounds(commitment + xs[0] * comms[0].0 + ys[0] * comms[0].1, comms[1..], xs[1..], ys[1..])
  }

  /** The revealed pair opens the fully folded commitment under the fully folded bases. */
  predicate PairOpens(p: int, g: seq<int>, h: seq<int>, commitment: int, comms: seq<(int, int)>, xs: seq<int>, ys: seq<int>, a: int, b: int, q: int)
    requires p > 0 && |comms| == |xs| == |ys| && |g| == |h| == Pow(2, |xs|)
  {
    Cong(FoldAll(g, ys) * a + FoldAll(h, xs) * b + (a * b) * q, WithRounds(commitment, comms, xs, ys), p)
  }

  /** The inner-product equation of a proof. */
  predicate ProductOpened(p: int, pp: Params, n: nat, f: Proof, c: Challenge, xs: seq<int>)
    requires p > 0 && |pp.g| == |pp.h| == n == Pow(2, |f.comms|) && |xs| == |f.comms|
  {
    var hs := ShiftedH(p, pp.h, c.y);
    PairOpens(p, pp.g, hs, Start(pp, f, c, Shift(Powers(c.y, n), Powers(2, n), c.z), hs), f.comms, xs, Inverses(p, xs), f.a, f.b, pp.u * c.w)
  }

  // -------------------------------------------- the code's two halves say just that

  lemma LinearMeans(p: int, ped: Pedersen, comm: int, n: nat, f: Proof, c: Challenge)
    requires p > 0
    ensures Cong(LinearCheck(ped, comm, f, c.x, c.z, Delta(Powers(c.y, n), Powers(2, n), c.z)), 0, p)
       <==> PolynomialOpened(p, ped, comm, n, f, c)
  {
    var yp, tp := Sum(Powers(c.y, n)), Sum(Powers(2, n));
    OffsetIs(c.z, yp, tp);
    LinearSplit(ped.g, ped.h, f.tX, f.rTX, Delta(Powers(c.y, n), Powers(2, n), c.z), c.z * c.z, comm, c.x, c.x * c.x, f.commLc1, f.commLc2);
    CongZero(ped.g * f.tX + ped.h * f.rTX,
      (c.z * c.z) * comm + ped.g * Offset(c.y, c.z, n) + c.x * f.commLc1 + (c.x * c.x) * f.commLc2, p);
  }

  lemma OffsetIs(z: int, yp: int, tp: int)
    ensures (z - z * z) * yp - tp * (z * z) * z == (z - z * z) * yp - (z * z * z) * tp
  {
  }

  lemma LinearSplit(g: int, h: int, t: int, r: int, d: int, zz: int, comm: int, x: int, xx: int, c1: int, c2: int)
    ensures g * (t - d) + h * r - zz * comm - x * c1 - xx * c2 == (g * t + h * r) - (zz * comm + g * d + x * c1 + xx * c2)
  {
  }

  lemma CongZero(a: int, b: int, p: int)
    requires p > 0
    ensures Cong(a - b, 0, p) <==> Cong(a, b, p)
  {
    CongDiff(a - b, 0, p);
    CongDiff(a, b, p);
  }

  lemma {:induction false} ResidualMeans(g: seq<int>, h: seq<int>, c: int, comms: seq<(int, int)>, xs: seq<int>, ys: seq<int>, a: int, b: int, q: int)
    requires |xs| == |ys| == |comms| && |g| == |h| == Pow(2, |xs|)
    ensures RecursiveResidual(g, h, c, comms, xs, ys, a, b, q)
         == FoldAll(g, ys) * a + FoldAll(h, xs) * b + (a * b) * q - WithRounds(c, comms, xs, ys)
    decreases |xs|
  {
    if xs != [] {
      HalfLength(g, ys);
      HalfLength(h, xs);
      hide Pow;
      ResidualMeans(Halve(g, ys[0]), Halve(h, xs[0]), Absorb(c, xs[0], ys[0], comms[0]), comms[1..], xs[1..], ys[1..], a, b, q);
    }
  }

  function LinearGap(ped: Pedersen, comm: int, n: nat, f: Proof, c: Challenge): int
  {
    LinearCheck(ped, comm, f, c.x, c.z, Delta(Powers(c.y, n), Powers(2, n), c.z))
  }

  function ProductGap(p: int, pp: Params, n: nat, f: Proof, c: Challenge, xs: seq<int>): int
    requires |pp.g| == |pp.h| == n == Pow(2, |f.comms|) && |xs| == |f.comms|
  {
    var hs := ShiftedH(p, pp.h, c.y);
    RecursiveResidual(pp.g, hs, Start(pp, f, c, Shift(Powers(c.y, n), Powers(2, n), c.z), hs), f.comms, xs, Inverses(p, xs), f.a, f.b, pp.u * c.w)
  }

  lemma ProductMeans(p: int, pp: Params, n: nat, f: Proof, c: Challenge, xs: seq<int>)
    requires p > 0 && |pp.g| == |pp.h| == n == Pow(2, |f.comms|) && |xs| == |f.comms|
    ensures Cong(ProductGap(p, pp, n, f, c, xs), 0, p) <==> ProductOpened(p, pp, n, f, c, xs)
  {
    hide RecursiveResidual, Start, WithRounds, FoldAll, Times, Shift, Powers, Inverses;
    var hs := ShiftedH(p, pp.h, c.y);
    var start := Start(pp, f, c, Shift(Powers(c.y, n), Powers(2, n), c.z), hs);
    ResidualMeans(pp.g, hs, start, f.comms, xs, Inverses(p, xs), f.a, f.b, pp.u * c.w);
    CongZero(FoldAll(pp.g, Inverses(p, xs)) * f.a + FoldAll(hs, xs) * f.b + (f.a * f.b) * (pp.u * c.w),
      WithRounds(start, f.comms, xs, Inverses(p, xs)), p);
  }

  /** The verdict in terms of the two gaps. */
  lemma VerdictIsCombined(o: Oracle, p: int, pp: Params, ped: Pedersen, comm: int, n: nat, f: Proof)
    requires p > 0 && |pp.g| == |pp.h| == n && VerifyRange(o, p, pp, ped, comm, n, f).Done?
    ensures n == Pow(2, |f.comms|)
    ensures var c := Derive(o, p, ped, pp, comm, n, f);
      VerifyRange(o, p, pp, ped, comm, n, f) == Done(true)
      <==> Cong(Combiner(o, p, c.aux, f) * LinearGap(ped, comm, n, f, c) + ProductGap(p, pp, n, f, c, Challenges(o, p, c.aux, f.comms)), 0, p)
  {
    hide Derive, Challenges, Inverses, Powers, Shift, Combiner, LinearCheck, Delta, Unit, AllUnits, RecursiveResidual, Start, Times;
    VerifierRefinesRecursion(o, p, pp, ped, comm, n, f);
    hide VerifyRange;
  }

  // ---------------------------------------------------------------- soundness

  /** The hash that combines the halves replaced, and nothing else. */
  function WithShort(o: Oracle, short: seq<int> -> int): Oracle
  {
    o.(short := short)
  }

  /** That hash is drawn after everything else is fixed. */
  lemma {:induction false} ShortComesLast(o: Oracle, short: seq<int> -> int, p: int, aux: int, comms: seq<(int, int)>)
    requires p > 0
    ensures Challenges(WithShort(o, short), p, aux, comms) == Challenges(o, p, aux, comms)
    ensures LastDigest(WithShort(o, short), p, aux, comms) == LastDigest(o, p, aux, comms)
    decreases |comms|
  {
    if comms != [] {
      ShortComesLast(o, short, p, Next(o, p, aux, comms[0]), comms[1..]);
    }
  }

  lemma DeriveWithoutShort(o: Oracle, short: seq<int> -> int, p: int, ped: Pedersen, pp: Params, comm: int, n: nat, f: Proof)
    requires p > 0
    ensures Derive(WithShort(o, short), p, ped, pp, comm, n, f) == Derive(o, p, ped, pp, comm, n, f)
  {
  }

  /** A proof whose two equations hold is accepted, whatever combines them. */
  lemma BothHoldAccepted(o: Oracle, p: int, pp: Params, ped: Pedersen, comm: int, n: nat, f: Proof)
    requires p > 0 && |pp.g| == |pp.h| == n == Pow(2, |f.comms|)
    requires var c := Derive(o, p, ped, pp, comm, n, f);
      && Unit(p, c.y) && AllUnits(p, Challenges(o, p, c.aux, f.comms))
      && PolynomialOpened(p, ped, comm, n, f, c) && ProductOpened(p, pp, n, f, c, Challenges(o, p, c.aux, f.comms))
    ensures VerifyRange(o, p, pp, ped, comm, n, f) == Done(true)
  {
    hide VerifyRange, Derive, Challenges, Combiner, PolynomialOpened, ProductOpened, LinearGap, ProductGap, Unit, AllUnits;
    var c := Derive(o, p, ped, pp, comm, n, f);
    var xs := Challenges(o, p, c.aux, f.comms);
    VerifierStops(o, p, pp, ped, comm, n, f);
    VerdictIsCombined(o, p, pp, ped, comm, n, f);
    LinearGapMeans(p, ped, comm, n, f, c);
    ProductMeans(p, pp, n, f, c, xs);
    hide Cong;
    var s, linear := Combiner(o, p, c.aux, f), LinearGap(ped, comm, n, f, c);
    CongScale(s, linear, 0, p);
    CongAdd(s * linear, s * 0, ProductGap(p, pp, n, f, c, xs), 0, p);
  }

  lemma LinearGapMeans(p: int, ped: Pedersen, comm: int, n: nat, f: Proof, c: Challenge)
    requires p > 0
    ensures Cong(LinearGap(ped, comm, n, f, c), 0, p) <==> PolynomialOpened(p, ped, comm, n, f, c)
  {
    LinearMeans(p, ped, comm, n, f, c);
  }

  /**
   * Soundness of the combination: a proof of any origin that is accepted under two different combiners satisfies both
   * equations. So a proof that fails either one is accepted for at most one residue of the combiner.
   */
  lemma TwoCombiners(o: Oracle, short: seq<int> -> int, p: int, pp: Params, ped: Pedersen, comm: int, n: nat, f: Proof)
    requires Prime(p) && p > 0 && |pp.g| == |pp.h| == n
    requires VerifyRange(o, p, pp, ped, comm, n, f) == Done(true)
    requires VerifyRange(WithShort(o, short), p, pp, ped, comm, n, f) == Done(true)
    requires var aux := Derive(o, p, ped, pp, comm, n, f).aux;
      !Cong(Combiner(o, p, aux, f), Combiner(WithShort(o, short), p, aux, f), p)
    ensures n == Pow(2, |f.comms|)
    ensures var c := Derive(o, p, ped, pp, comm, n, f);
      PolynomialOpened(p, ped, comm, n, f, c) && ProductOpened(p, pp, n, f, c, Challenges(o, p, c.aux, f.comms))
  {
    hide VerifyRange, Derive, Challenges, Combiner, PolynomialOpened, ProductOpened, Prime, Cong, WithShort, LinearGap, ProductGap;
    var o' := WithShort(o, short);
    var c := Derive(o, p, ped, pp, comm, n, f);
    var xs := Challenges(o, p, c.aux, f.comms);
    DeriveWithoutShort(o, short, p, ped, pp, comm, n, f);
    ShortComesLast(o, short, p, c.aux, f.comms);
    VerdictIsCombined(o, p, pp, ped, comm, n, f);
    VerdictIsCombined(o', p, pp, ped, comm, n, f);
    TwoSolutions(p, Combiner(o, p, c.aux, f), Combiner(o', p, c.aux, f), LinearGap(ped, comm, n, f, c), ProductGap(p, pp, n, f, c, xs));
    LinearGapMeans(p, ped, comm, n, f, c);
    ProductMeans(p, pp, n, f, c, xs);
  }

  /** Two lines through the origin of different slope meet only there. */
  lemma TwoSolutions(p: int, s: int, t: int, linear: int, product: int)
    requires Prime(p) && p > 0 && !Cong(s, t, p)
    requires Cong(s * linear + product, 0, p) && Cong(t * linear + product, 0, p)
    ensures Cong(linear, 0, p) && Cong(product, 0, p)
  {
    hide *;
    var a, b := s * linear, t * linear;
    CongDiff(a + product, 0, p);
    CongDiff(b + product, 0, p);
    DivSum(p, a + product, b + product);
    DifferenceTimes(s, t, linear);
    Euclid(p, s - t, linear);
    CongDiff(s, t, p);
    CongDiff(linear, 0, p);
    DivMul(p, linear, s);
    DivSum(p, a + product, a);
    CongDiff(product, 0, p);
  }

  lemma DifferenceTimes(s: int, t: int, x: int)
    ensures s * x - t * x == (s - t) * x
  {
  }

  // ------------------------------------------------------------- the transcript

  /** Two different inputs of a hash with the same value. */
  predicate Collision(o: Oracle, x: seq<int>, y: seq<int>)
  {
    x != y && (o.digest(x) == o.digest(y) || o.short(x) == o.short(y))
  }

  predicate SameRounds(p: int, comms: seq<(int, int)>, comms': seq<(int, int)>)
    requires p > 0 && |comms| == |comms'|
  {
    forall i :: 0 <= i < |comms| ==> Cong(comms[i].0, comms'[i].0, p) && Cong(comms[i].1, comms'[i].1, p)
  }

  lemma {:induction false} RoundsBind(o: Oracle, p: int, aux: int, comms: seq<(int, int)>, aux': int, comms': seq<(int, int)>)
    returns (x: seq<int>, y: seq<int>)
    requires p > 0 && |comms| == |comms'| && LastDigest(o, p, aux, comms) == LastDigest(o, p, aux', comms')
    ensures Collision(o, x, y) || (aux == aux' && SameRounds(p, comms, comms'))
    decreases |comms|
  {
    x, y := [], [];
    if comms != [] {
      var x1, y1 := [aux, comms[0].0 % p, comms[0].1 % p], [aux', comms'[0].0 % p, comms'[0].1 % p];
      x, y := RoundsBind(o, p, o.digest(x1), comms[1..], o.digest(y1), comms'[1..]);
      if !Collision(o, x, y) {
        x, y := x1, y1;
        if x1 == y1 {
          assert x1[0] == y1[0] && x1[1] == y1[1] && x1[2] == y1[2];
          forall i | 0 <= i < |comms| ensures Cong(comms[i].0, comms'[i].0, p) && Cong(comms[i].1, comms'[i].1, p) {
            if i > 0 {
              assert comms[i] == comms[1..][i - 1] && comms'[i] == comms'[1..][i - 1];
            }
          }
        }
      }
    }
  }

  /** The same statement and the same proof, part by part up to residues. */
  predicate SameClaim(p: int, ped: Pedersen, pp: Params, comm: int, n: nat, f: Proof, ped': Pedersen, pp': Params, comm': int, n': nat, f': Proof)
    requires p > 0 && |f.comms| == |f'.comms|
  {
    && Canon(p, [ped.g, ped.h] + pp.g + pp.h + [pp.u]) == Canon(p, [ped'.g, ped'.h] + pp'.g + pp'.h + [pp'.u])
    && Cong(comm, comm', p) && n == n'
    && Cong(f.commBits, f'.commBits, p) && Cong(f.commBlind, f'.commBlind, p)
    && Cong(f.commLc1, f'.commLc1, p) && Cong(f.commLc2, f'.commLc2, p)
    && Cong(f.tX, f'.tX, p) && Cong(f.rTX, f'.rTX, p) && Cong(f.rAB, f'.rAB, p)
    && SameRounds(p, f.comms, f'.comms) && Cong(f.a, f'.a, p) && Cong(f.b, f'.b, p)
  }

  /**
   * The combiner binds everything: two proofs that arrive at the same one agree on the parameters, the commitment and
   * every part of the proof, or two different inputs of a hash collide.
   */
  lemma TranscriptBinds(o: Oracle, p: int, ped: Pedersen, pp: Params, comm: int, n: nat, f: Proof,
                        ped': Pedersen, pp': Params, comm': int, n': nat, f': Proof) returns (x: seq<int>, y: seq<int>)
    requires p > 0 && |f.comms| == |f'.comms|
    requires Combiner(o, p, Derive(o, p, ped, pp, comm, n, f).aux, f) == Combiner(o, p, Derive(o, p, ped', pp', comm', n', f').aux, f')
    ensures Collision(o, x, y) || SameClaim(p, ped, pp, comm, n, f, ped', pp', comm', n', f')
  {
    var d1, d1' := BitsDigest(o, p, ped, pp, comm, n, f.commBits, f.commBlind), BitsDigest(o, p, ped', pp', comm', n', f'.commBits, f'.commBlind);
    var d2, d2' := LcDigest(o, p, d1, f.commLc1, f.commLc2), LcDigest(o, p, d1', f'.commLc1, f'.commLc2);
    var d3, d3' := OpenDigest(o, p, d2, f.tX, f.rTX, f.rAB), OpenDigest(o, p, d2', f'.tX, f'.rTX, f'.rAB);
    x, y := [LastDigest(o, p, d3, f.comms), f.a % p, f.b % p], [LastDigest(o, p, d3', f'.comms), f'.a % p, f'.b % p];
    if x != y {
      return;
    }
    assert x[0] == y[0] && x[1] == y[1] && x[2] == y[2];
    x, y := RoundsBind(o, p, d3, f.comms, d3', f'.comms);
    if Collision(o, x, y) {
      return;
    }
    x, y := [d2, f.tX % p, f.rTX % p, f.rAB % p], [d2', f'.tX % p, f'.rTX % p, f'.rAB % p];
    if x != y {
      return;
    }
    assert x[0] == y[0] && x[1] == y[1] && x[2] == y[2] && x[3] == y[3];
    x, y := [d1, f.commLc1 % p, f.commLc2 % p], [d1', f'.commLc1 % p, f'.commLc2 % p];
    if x != y {
      return;
    }
    assert x[0] == y[0] && x[1] == y[1] && x[2] == y[2];
    x, y := [ParamDigest(o, p, ped, pp), comm % p, n, f.commBits % p, f.commBlind % p], [ParamDigest(o, p, ped', pp'), comm' % p, n', f'.commBits % p, f'.commBlind % p];
    if x != y {
      return;
    }
    assert x[0] == y[0] && x[1] == y[1] && x[2] == y[2] && x[3] == y[3] && x[4] == y[4];
    x, y := Canon(p, [ped.g, ped.h] + pp.g + pp.h + [pp.u]), Canon(p, [ped'.g, ped'.h] + pp'.g + pp'.h + [pp'.u]);
  }
}
