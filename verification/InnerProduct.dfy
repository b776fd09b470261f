/**
 * The inner-product argument of the range proof: the prover's halving loop, the verifier's doubled
 * exponents, and the recursive check both stand for (range_proofs/src/bulletproofs.rs).
 * Field elements are integers read modulo `p`; a point is its discrete logarithm, read the same way.
 */
module InnerProduct {
  import opened Arithmetic
  import opened Outcomes
  import opened Primes
  import opened Vectors

  // ------------------------------------------------------------ the transcript

  /** The hash and the two halves of a digest that become challenges. Only canonical residues are hashed. */
  datatype Oracle = Oracle(digest: seq<int> -> int, low: int -> int, high: int -> int, short: seq<int> -> int)

  /** The modular inverse the field library returns. */
  function Inverse(p: int, x: int): int
  {
    ExtendedGcd(x, p).x
  }

  predicate Unit(p: int, x: int)
    requires p > 0
  {
    x % p != 0
  }

  predicate AllUnits(p: int, xs: seq<int>)
    requires p > 0
  {
    forall i :: 0 <= i < |xs| ==> Unit(p, xs[i])
  }

  lemma InverseWorks(p: int, x: int)
    requires Prime(p) && Unit(p, x)
    ensures Cong(x * Inverse(p, x), 1, p)
  {
    var r := ExtendedGcd(x, p);
    PrimeDivisors(p, r.g);
    assert r.g == 1;
    assert x * r.x - 1 == p * (-r.y);
    DivIntro(p, -r.y, x * r.x - 1);
    CongDiff(x * r.x, 1, p);
  }

  function Next(o: Oracle, p: int, aux: int, comms: (int, int)): int
    requires p > 0
  {
    o.digest([aux, comms.0 % p, comms.1 % p])
  }

  /** The challenge of every round. */
  function Challenges(o: Oracle, p: int, aux: int, comms: seq<(int, int)>): (xs: seq<int>)
    requires p > 0
    ensures |xs| == |comms|
    decreases |comms|
  {
    if comms == [] then []
    else
      var d := Next(o, p, aux, comms[0]);
      [o.low(d)] + Challenges(o, p, d, comms[1..])
  }

  /** The transcript digest after all rounds. */
  function LastDigest(o: Oracle, p: int, aux: int, comms: seq<(int, int)>): int
    requires p > 0
    decreases |comms|
  {
    if comms == [] then aux else LastDigest(o, p, Next(o, p, aux, comms[0]), comms[1..])
  }

  function Inverses(p: int, xs: seq<int>): (r: seq<int>)
    ensures |r| == |xs|
  {
    seq(|xs|, i requires 0 <= i < |xs| => Inverse(p, xs[i]))
  }

  // ------------------------------------------------------------------ halving

  predicate PowerOfTwo(n: nat)
  {
    n == 1 || (n > 1 && n % 2 == 0 && PowerOfTwo(n / 2))
  }

  function Lo(v: seq<int>): seq<int>
  {
    v[..|v| / 2]
  }

  function Hi(v: seq<int>): seq<int>
  {
    v[|v| / 2..]
  }

  predicate Even(n: nat)
  {
    n % 2 == 0
  }

  /** `lo + k * hi`. */
  function Halve(v: seq<int>, k: int): (r: seq<int>)
    requires Even(|v|)
    ensures |r| == |v| / 2
  {
    Comb(Lo(v), k, Hi(v))
  }

  lemma DotHalves(a: seq<int>, b: seq<int>)
    requires |a| == |b| && Even(|a|)
    ensures Dot(a, b) == Dot(Lo(a), Lo(b)) + Dot(Hi(a), Hi(b))
  {
    assert a == Lo(a) + Hi(a) && b == Lo(b) + Hi(b);
    DotAppend(Lo(a), Hi(a), Lo(b), Hi(b));
  }

  /** The commitment after a round with cross commitments `comm`, challenge `x` and its inverse `y`. */
  function Absorb(c: int, x: int, y: int, comm: (int, int)): int
  {
    c + x * comm.0 + y * comm.1
  }

  /** What the prover commits to: both inner products, and their product on the extra base `q`. */
  function Commitment(g: seq<int>, h: seq<int>, a: seq<int>, b: seq<int>, q: int): int
    requires |g| == |h| == |a| == |b|
  {
    Dot(g, a) + Dot(h, b) + Dot(a, b) * q
  }

  /** The left cross commitment of a round. */
  function Left(g: seq<int>, h: seq<int>, a: seq<int>, b: seq<int>, q: int): int
    requires |g| == |h| == |a| == |b| && Even(|g|)
  {
    Dot(Lo(g), Hi(a)) + Dot(Hi(h), Lo(b)) + Dot(Hi(a), Lo(b)) * q
  }

  /** The right cross commitment of a round. */
  function Right(g: seq<int>, h: seq<int>, a: seq<int>, b: seq<int>, q: int): int
    requires |g| == |h| == |a| == |b| && Even(|g|)
  {
    Dot(Hi(g), Lo(a)) + Dot(Lo(h), Hi(b)) + Dot(Lo(a), Hi(b)) * q
  }

  lemma ScaledSum(q: int, ca: int, x: int, cl: int, y: int, cr: int, z: int, cb: int)
    ensures (ca + y * cr + x * cl + z * cb) * q == ca * q + y * (cr * q) + x * (cl * q) + z * (cb * q)
  {
    assert (ca + y * cr + x * cl + z * cb) * q == ca * q + (y * cr) * q + (x * cl) * q + (z * cb) * q;
  }

  lemma RoundAlgebra(x: int, y: int, z: int, ga: int, gl: int, gr: int, gb: int,
                     ha: int, hl: int, hr: int, hb: int, ca: int, cl: int, cr: int, cb: int)
    ensures (ga + x * gl + y * gr + z * gb) + (ha + y * hr + x * hl + z * hb) + (ca + y * cr + x * cl + z * cb)
         == (ga + ha + ca) + x * (gl + hl + cl) + y * (gr + hr + cr) + z * (gb + hb + cb)
  {
  }

  /** The part of a commitment carried by the lower halves. */
  function LowPart(g: seq<int>, h: seq<int>, a: seq<int>, b: seq<int>, q: int): int
    requires |g| == |h| == |a| == |b| && Even(|g|)
  {
    Dot(Lo(g), Lo(a)) + Dot(Lo(h), Lo(b)) + Dot(Lo(a), Lo(b)) * q
  }

  /** The part of a commitment carried by the upper halves. */
  function HighPart(g: seq<int>, h: seq<int>, a: seq<int>, b: seq<int>, q: int): int
    requires |g| == |h| == |a| == |b| && Even(|g|)
  {
    Dot(Hi(g), Hi(a)) + Dot(Hi(h), Hi(b)) + Dot(Hi(a), Hi(b)) * q
  }

  lemma SplitCommitment(g: seq<int>, h: seq<int>, a: seq<int>, b: seq<int>, q: int)
    requires |g| == |h| == |a| == |b| && Even(|g|)
    ensures Commitment(g, h, a, b, q) == LowPart(g, h, a, b, q) + HighPart(g, h, a, b, q)
  {
    DotHalves(g, a);
    DotHalves(h, b);
    DotHalves(a, b);
    Distribute(Dot(Lo(a), Lo(b)), 1, Dot(Hi(a), Hi(b)), q);
  }

  lemma FoldCommitment(g: seq<int>, h: seq<int>, a: seq<int>, b: seq<int>, q: int, x: int, y: int)
    requires |g| == |h| == |a| == |b| && Even(|g|)
    ensures Commitment(Halve(g, y), Halve(h, x), Halve(a, x), Halve(b, y), q)
         == LowPart(g, h, a, b, q) + x * Left(g, h, a, b, q) + y * Right(g, h, a, b, q) + (x * y) * HighPart(g, h, a, b, q)
  {
    DotFolded(Lo(g), y, Hi(g), Lo(a), x, Hi(a));
    DotFolded(Lo(h), x, Hi(h), Lo(b), y, Hi(b));
    DotFolded(Lo(a), x, Hi(a), Lo(b), y, Hi(b));
    var ga, gl, gr, gb := Dot(Lo(g), Lo(a)), Dot(Lo(g), Hi(a)), Dot(Hi(g), Lo(a)), Dot(Hi(g), Hi(a));
    var ha, hl, hr, hb := Dot(Lo(h), Lo(b)), Dot(Hi(h), Lo(b)), Dot(Lo(h), Hi(b)), Dot(Hi(h), Hi(b));
    var ca, cl, cr, cb := Dot(Lo(a), Lo(b)), Dot(Hi(a), Lo(b)), Dot(Lo(a), Hi(b)), Dot(Hi(a), Hi(b));
    assert y * x == x * y;
    hide Dot, Comb, Lo, Hi;
    ScaledSum(q, ca, x, cl, y, cr, x * y, cb);
    RoundAlgebra(x, y, x * y, ga, gl, gr, gb, ha, hl, hr, hb, ca * q, cl * q, cr * q, cb * q);
  }

  /**
   * The loop invariant of folding: the commitment of the folded vectors is the old one plus `x` times the
   * left and `x^-1` times the right cross commitment.
   */
  lemma RoundPreserves(g: seq<int>, h: seq<int>, a: seq<int>, b: seq<int>, q: int, x: int, y: int, p: int)
    requires |g| == |h| == |a| == |b| && Even(|g|) && p > 0 && Cong(x * y, 1, p)
    ensures Cong(Commitment(Halve(g, y), Halve(h, x), Halve(a, x), Halve(b, y), q),
                 Absorb(Commitment(g, h, a, b, q), x, y, (Left(g, h, a, b, q), Right(g, h, a, b, q))), p)
  {
    hide Commitment, Left, Right, Dot, Cong, Halve;
    FoldCommitment(g, h, a, b, q, x, y);
    SplitCommitment(g, h, a, b, q);
    var top := HighPart(g, h, a, b, q);
    var rest := LowPart(g, h, a, b, q) + x * Left(g, h, a, b, q) + y * Right(g, h, a, b, q);
    CongScale(top, x * y, 1, p);
    CongSame(rest, p);
    CongAdd(rest, rest, (x * y) * top, 1 * top, p);
  }

  lemma CongSame(a: int, p: int)
    requires p > 0
    ensures Cong(a, a, p)
  {
  }

  // -------------------------------------------------------- the prover's loop

  datatype Argument = Argument(comms: seq<(int, int)>, a: int, b: int)

  /** The halving loop; a challenge without an inverse stops the program. */
  function Prove(o: Oracle, p: int, aux: int, g: seq<int>, h: seq<int>, a: seq<int>, b: seq<int>, q: int): (r: Outcome<Argument>)
    requires p > 0 && PowerOfTwo(|g|) && |g| == |h| == |a| == |b|
    decreases |g|
  {
    if |g| == 1 then Done(Argument([], a[0], b[0]))
    else
      var comms := (Left(g, h, a, b, q), Right(g, h, a, b, q));
      var d := Next(o, p, aux, comms);
      var x := o.low(d);
      if !Unit(p, x) then Panic
      else
        var y := Inverse(p, x);
        match Prove(o, p, d, Halve(g, y), Halve(h, x), Halve(a, x), Halve(b, y), q)
        case Panic => Panic
        case Done(rest) => Done(rest.(comms := [comms] + rest.comms))
  }

  /** The outcome of the whole loop when `done` rounds are already recorded. */
  function Resume(done: seq<(int, int)>, rest: Outcome<Argument>): Outcome<Argument>
  {
    match rest case Panic => Panic case Done(r) => Done(r.(comms := done + r.comms))
  }

  lemma ResumeStep(done: seq<(int, int)>, c: (int, int), rest: Outcome<Argument>)
    ensures Resume(done, match rest case Panic => Panic case Done(r) => Done(r.(comms := [c] + r.comms)))
         == Resume(done + [c], rest)
  {
    if rest.Done? {
      assert done + ([c] + rest.value.comms) == done + [c] + rest.value.comms;
    }
  }

  lemma ResumeNone(rest: Outcome<Argument>)
    ensures Resume([], rest) == rest
  {
    if rest.Done? {
      assert [] + rest.value.comms == rest.value.comms;
    }
  }

  method FoldingLoop(o: Oracle, p: int, aux0: int, g0: seq<int>, h0: seq<int>, a0: seq<int>, b0: seq<int>, q: int)
    returns (r: Outcome<Argument>)
    requires p > 0 && PowerOfTwo(|g0|) && |g0| == |h0| == |a0| == |b0|
    ensures r == Prove(o, p, aux0, g0, h0, a0, b0, q)
  {
    var aux, g, h, a, b := aux0, g0, h0, a0, b0;
    var comms: seq<(int, int)> := [];
    ResumeNone(Prove(o, p, aux0, g0, h0, a0, b0, q));
    while |a| != 1
      invariant PowerOfTwo(|g|) && |g| == |h| == |a| == |b|
      invariant Prove(o, p, aux0, g0, h0, a0, b0, q) == Resume(comms, Prove(o, p, aux, g, h, a, b, q))
      decreases |a|
    {
      var l, rt := Left(g, h, a, b, q), Right(g, h, a, b, q);
      var d := Next(o, p, aux, (l, rt));
      var x := o.low(d);
      if !Unit(p, x) {
        return Panic;
      }
      var y := Inverse(p, x);
      ResumeStep(comms, (l, rt), Prove(o, p, d, Halve(g, y), Halve(h, x), Halve(a, x), Halve(b, y), q));
      aux, g, h, a, b := d, Halve(g, y), Halve(h, x), Halve(a, x), Halve(b, y);
      comms := comms + [(l, rt)];
    }
    assert comms + [] == comms;
    return Done(Argument(comms, a[0], b[0]));
  }

  // ------------------------------------------------ the verifier's doubling loop

  /** Exponents of the bases after folding with multipliers `ms`; the first one acts on the upper half. */
  function Aggregate(ms: seq<int>): (r: seq<int>)
    ensures |r| == Pow(2, |ms|)
  {
    if ms == [] then [1]
    else
      var t := Aggregate(ms[1..]);
      t + Scale(ms[0], t)
  }

  method AggregateExponents(ms: seq<int>) returns (r: seq<int>)
    ensures r == Aggregate(ms)
  {
    r := [1];
    var i := 0;
    assert ms[|ms|..] == [];
    while i < |ms|
      invariant 0 <= i <= |ms|
      invariant r == Aggregate(ms[|ms| - i..])
    {
      var m := ms[|ms| - 1 - i];
      var t := r;
      var j := 0;
      while j < |t|
        invariant 0 <= j <= |t|
        invariant r == t + Scale(m, t)[..j]
      {
        r := r + [r[j] * m];
        assert Scale(m, t)[..j] + [Scale(m, t)[j]] == Scale(m, t)[..j + 1];
        j := j + 1;
      }
      assert Scale(m, t)[..|t|] == Scale(m, t);
      assert ms[|ms| - 1 - i..][1..] == ms[|ms| - i..];
      i := i + 1;
    }
    assert ms[0..] == ms;
  }

  /** Folding a vector round by round down to one element. */
  function FoldAll(v: seq<int>, ms: seq<int>): int
    requires |v| == Pow(2, |ms|)
    decreases |ms|
  {
    if ms == [] then v[0]
    else HalfLength(v, ms); FoldAll(Halve(v, ms[0]), ms[1..])
  }

  lemma HalfLength(v: seq<int>, ms: seq<int>)
    requires ms != [] && |v| == Pow(2, |ms|)
    ensures Even(|v|) && |v| / 2 == Pow(2, |ms[1..]|)
  {
  }

  /** The doubled exponents compute exactly the fully folded base, for every vector and all multipliers. */
  lemma {:induction false} AggregateIsFold(v: seq<int>, ms: seq<int>)
    requires |v| == Pow(2, |ms|)
    ensures Dot(Aggregate(ms), v) == FoldAll(v, ms)
    decreases |ms|
  {
    if ms == [] {
      assert v == [v[0]] && Aggregate(ms) == [1];
      assert Dot([1], [v[0]]) == 1 * v[0] + Dot([], []);
    } else {
      HalfLength(v, ms);
      var t := Aggregate(ms[1..]);
      assert v == Lo(v) + Hi(v);
      DotAppend(t, Scale(ms[0], t), Lo(v), Hi(v));
      DotScale(ms[0], t, Hi(v));
      DotCombRight(Lo(v), ms[0], Hi(v), t);
      AggregateIsFold(Halve(v, ms[0]), ms[1..]);
    }
  }

  // ------------------------------------------------------- the recursive check

  function Lefts(comms: seq<(int, int)>): (r: seq<int>)
    ensures |r| == |comms|
  {
    seq(|comms|, i requires 0 <= i < |comms| => comms[i].0)
  }

  function Rights(comms: seq<(int, int)>): (r: seq<int>)
    ensures |r| == |comms|
  {
    seq(|comms|, i requires 0 <= i < |comms| => comms[i].1)
  }

  /**
   * The textbook verifier: halve the bases, update the commitment with the round's cross commitments,
   * and compare the last commitment with the revealed pair. Zero means accepted.
   */
  function RecursiveResidual(g: seq<int>, h: seq<int>, c: int, comms: seq<(int, int)>, xs: seq<int>, ys: seq<int>, a: int, b: int, q: int): int
    requires |xs| == |ys| == |comms| && |g| == |h| == Pow(2, |xs|)
    decreases |xs|
  {
    if xs == [] then g[0] * a + h[0] * b + (a * b) * q - c
    else
      HalfLength(g, xs);
      HalfLength(h, xs);
      RecursiveResidual(Halve(g, ys[0]), Halve(h, xs[0]), Absorb(c, xs[0], ys[0], comms[0]),
        comms[1..], xs[1..], ys[1..], a, b, q)
  }

  /** The same residual read off the doubled exponents in one pass. */
  function FlatResidual(g: seq<int>, h: seq<int>, c: int, comms: seq<(int, int)>, xs: seq<int>, ys: seq<int>, a: int, b: int, q: int): int
    requires |xs| == |ys| == |comms| && |g| == |h| == Pow(2, |xs|)
  {
    Dot(Aggregate(ys), g) * a + Dot(Aggregate(xs), h) * b + (a * b) * q
      - (c + Dot(xs, Lefts(comms)) + Dot(ys, Rights(comms)))
  }

  /** The flattened check equals the recursive one for every proof, honest or not. */
  lemma {:induction false} FlatIsRecursive(g: seq<int>, h: seq<int>, c: int, comms: seq<(int, int)>, xs: seq<int>, ys: seq<int>, a: int, b: int, q: int)
    requires |xs| == |ys| == |comms| && |g| == |h| == Pow(2, |xs|)
    ensures FlatResidual(g, h, c, comms, xs, ys, a, b, q) == RecursiveResidual(g, h, c, comms, xs, ys, a, b, q)
    decreases |xs|
  {
    AggregateIsFold(g, ys);
    AggregateIsFold(h, xs);
    if xs != [] {
      HalfLength(g, ys);
      HalfLength(h, xs);
      var g', h' := Halve(g, ys[0]), Halve(h, xs[0]);
      AggregateIsFold(g', ys[1..]);
      AggregateIsFold(h', xs[1..]);
      assert Lefts(comms)[1..] == Lefts(comms[1..]) && Rights(comms)[1..] == Rights(comms[1..]);
      var c' := Absorb(c, xs[0], ys[0], comms[0]);
      FlatIsRecursive(g', h', c', comms[1..], xs[1..], ys[1..], a, b, q);
    }
  }

  // ---------------------------------------------- the honest prover satisfies it

  lemma {:induction false} PowersOfTwo(n: nat) returns (k: nat)
    requires PowerOfTwo(n)
    ensures n == Pow(2, k)
  {
    if n == 1 {
      k := 0;
    } else {
      k := PowersOfTwo(n / 2);
      k := k + 1;
    }
  }

  /** A loop that stops has hashed something to a challenge without an inverse. */
  lemma {:induction false} LoopStops(o: Oracle, p: int, aux: int, g: seq<int>, h: seq<int>, a: seq<int>, b: seq<int>, q: int) returns (asked: seq<int>)
    requires p > 0 && PowerOfTwo(|g|) && |g| == |h| == |a| == |b|
    ensures Prove(o, p, aux, g, h, a, b, q).Panic? ==> !Unit(p, o.low(o.digest(asked)))
    decreases |g|
  {
    if |g| == 1 {
      asked := [];
    } else {
      var comms := (Left(g, h, a, b, q), Right(g, h, a, b, q));
      asked := [aux, comms.0 % p, comms.1 % p];
      var d := Next(o, p, aux, comms);
      var x := o.low(d);
      if Unit(p, x) {
        var y := Inverse(p, x);
        asked := LoopStops(o, p, d, Halve(g, y), Halve(h, x), Halve(a, x), Halve(b, y), q);
      }
    }
  }

  lemma {:induction false} ProveLength(o: Oracle, p: int, aux: int, g: seq<int>, h: seq<int>, a: seq<int>, b: seq<int>, q: int)
    requires p > 0 && PowerOfTwo(|g|) && |g| == |h| == |a| == |b|
    requires Prove(o, p, aux, g, h, a, b, q).Done?
    ensures |g| == Pow(2, |Prove(o, p, aux, g, h, a, b, q).value.comms|)
    decreases |g|
  {
    if |g| > 1 {
      var comms := (Left(g, h, a, b, q), Right(g, h, a, b, q));
      var d := Next(o, p, aux, comms);
      var x := o.low(d);
      var y := Inverse(p, x);
      ProveLength(o, p, d, Halve(g, y), Halve(h, x), Halve(a, x), Halve(b, y), q);
    }
  }

  /** The residual the verifier finds for the prover's output when it starts from `c`. */
  ghost function ResidualOf(o: Oracle, p: int, aux: int, g: seq<int>, h: seq<int>, r: Argument, q: int, c: int): int
    requires p > 0 && |g| == |h| == Pow(2, |r.comms|)
  {
    var xs := Challenges(o, p, aux, r.comms);
    RecursiveResidual(g, h, c, r.comms, xs, Inverses(p, xs), r.a, r.b, q)
  }

  lemma ResidualStep(o: Oracle, p: int, aux: int, g: seq<int>, h: seq<int>, rest: Argument, comm: (int, int), q: int, c: int)
    requires p > 0 && Even(|g|) && |g| == |h| == 2 * Pow(2, |rest.comms|)
    ensures var r := rest.(comms := [comm] + rest.comms);
            var x := o.low(Next(o, p, aux, comm));
            var y := Inverse(p, x);
            && |g| == Pow(2, |r.comms|)
            && ResidualOf(o, p, aux, g, h, r, q, c)
               == ResidualOf(o, p, Next(o, p, aux, comm), Halve(g, y), Halve(h, x), rest, q, Absorb(c, x, y, comm))
            && Challenges(o, p, aux, r.comms) == [x] + Challenges(o, p, Next(o, p, aux, comm), rest.comms)
  {
    var r := rest.(comms := [comm] + rest.comms);
    var d := Next(o, p, aux, comm);
    var xs, xs' := Challenges(o, p, aux, r.comms), Challenges(o, p, d, rest.comms);
    assert r.comms[1..] == rest.comms && r.comms[0] == comm;
    assert xs == [o.low(d)] + xs' && xs[1..] == xs';
    assert Inverses(p, xs)[1..] == Inverses(p, xs');
  }

  /** One unfolding of the halving loop. */
  lemma ProveStep(o: Oracle, p: int, aux: int, g: seq<int>, h: seq<int>, a: seq<int>, b: seq<int>, q: int)
    requires p > 0 && PowerOfTwo(|g|) && |g| == |h| == |a| == |b| && |g| != 1
    requires Prove(o, p, aux, g, h, a, b, q).Done?
    ensures var comm := (Left(g, h, a, b, q), Right(g, h, a, b, q));
            var x := o.low(Next(o, p, aux, comm));
            var y := Inverse(p, x);
            var rest := Prove(o, p, Next(o, p, aux, comm), Halve(g, y), Halve(h, x), Halve(a, x), Halve(b, y), q);
            Unit(p, x) && rest.Done?
            && Prove(o, p, aux, g, h, a, b, q).value == rest.value.(comms := [comm] + rest.value.comms)
  {
  }

  /** Started from a commitment congruent to the prover's, the recursive check of its output leaves no residual. */
  lemma {:induction false} ProverSatisfies(o: Oracle, p: int, aux: int, g: seq<int>, h: seq<int>, a: seq<int>, b: seq<int>, q: int, c: int)
    requires Prime(p) && PowerOfTwo(|g|) && |g| == |h| == |a| == |b|
    requires Prove(o, p, aux, g, h, a, b, q).Done?
    requires Cong(c, Commitment(g, h, a, b, q), p)
    ensures var r := Prove(o, p, aux, g, h, a, b, q).value;
            && |g| == Pow(2, |r.comms|) && AllUnits(p, Challenges(o, p, aux, r.comms))
            && Cong(ResidualOf(o, p, aux, g, h, r, q, c), 0, p)
    decreases |g|
  {
    assert p > 0;
    if |g| == 1 {
      BaseResidual(o, p, aux, g, h, a, b, q, c);
    } else {
      ProveStep(o, p, aux, g, h, a, b, q);
      assert Even(|g|) && PowerOfTwo(|g| / 2);
      hide *;
      var comm := (Left(g, h, a, b, q), Right(g, h, a, b, q));
      var d := Next(o, p, aux, comm);
      var x := o.low(d);
      var y := Inverse(p, x);
      InverseWorks(p, x);
      var g', h', a', b' := Halve(g, y), Halve(h, x), Halve(a, x), Halve(b, y);
      RoundPreserves(g, h, a, b, q, x, y, p);
      var c' := Absorb(c, x, y, comm);
      AbsorbCong(c, Commitment(g, h, a, b, q), x, y, comm, p);
      CongChain(c', Absorb(Commitment(g, h, a, b, q), x, y, comm), Commitment(g', h', a', b', q), p);
      ProverSatisfies(o, p, d, g', h', a', b', q, c');
      var rest := Prove(o, p, d, g', h', a', b', q).value;
      ResidualStep(o, p, aux, g, h, rest, comm, q, c);
      UnitsStep(p, x, Challenges(o, p, d, rest.comms));
    }
  }

  lemma AbsorbCong(c: int, k: int, x: int, y: int, comm: (int, int), p: int)
    requires p > 0 && Cong(c, k, p)
    ensures Cong(Absorb(c, x, y, comm), Absorb(k, x, y, comm), p)
  {
    CongAdd(c, k, x * comm.0 + y * comm.1, x * comm.0 + y * comm.1, p);
  }

  lemma CongChain(a: int, b: int, c: int, p: int)
    requires p > 0 && Cong(a, b, p) && Cong(c, b, p)
    ensures Cong(a, c, p)
  {
  }

  lemma UnitsStep(p: int, x: int, xs: seq<int>)
    requires p > 0 && Unit(p, x) && AllUnits(p, xs)
    ensures AllUnits(p, [x] + xs)
  {
  }

  lemma BaseResidual(o: Oracle, p: int, aux: int, g: seq<int>, h: seq<int>, a: seq<int>, b: seq<int>, q: int, c: int)
    requires p > 0 && |g| == |h| == |a| == |b| == 1
    requires Cong(c, Commitment(g, h, a, b, q), p)
    ensures var r := Argument([], a[0], b[0]);
            |g| == Pow(2, |r.comms|) && Challenges(o, p, aux, r.comms) == []
            && Cong(ResidualOf(o, p, aux, g, h, r, q, c), 0, p)
  {
    var k := Commitment(g, h, a, b, q);
    DotSingle(g, a);
    DotSingle(h, b);
    DotSingle(a, b);
    assert ResidualOf(o, p, aux, g, h, Argument([], a[0], b[0]), q, c) == k - c;
    hide *;
    CongSame(k, p);
    CongFlip(c, k, p);
    CongAdd(k, k, k, c, p);
    CongAdd(k, c, c, c, p);
  }

  lemma CongFlip(a: int, b: int, p: int)
    requires p > 0 && Cong(a, b, p)
    ensures Cong(b, a, p) && Cong(a, a, p)
  {
  }

  lemma DotSingle(a: seq<int>, b: seq<int>)
    requires |a| == |b| == 1
    ensures Dot(a, b) == a[0] * b[0]
  {
    assert a[1..] == [] && b[1..] == [];
  }
}
