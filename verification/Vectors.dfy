/** Integer vectors: inner products and the linear combinations used by folding. */
module Vectors {
  import opened Arithmetic

  function Dot(a: seq<int>, b: seq<int>): int
    requires |a| == |b|
  {
    if a == [] then 0 else a[0] * b[0] + Dot(a[1..], b[1..])
  }

  function Sum(a: seq<int>): int
  {
    if a == [] then 0 else a[0] + Sum(a[1..])
  }

  /** The vector `u + k*v`. */
  function Comb(u: seq<int>, k: int, v: seq<int>): (r: seq<int>)
    requires |u| == |v|
    ensures |r| == |u|
  {
    seq(|u|, i requires 0 <= i < |u| => u[i] + k * v[i])
  }

  function Scale(k: int, v: seq<int>): (r: seq<int>)
    ensures |r| == |v|
  {
    seq(|v|, i requires 0 <= i < |v| => k * v[i])
  }

  /** Entrywise product. */
  function Times(u: seq<int>, v: seq<int>): (r: seq<int>)
    requires |u| == |v|
    ensures |r| == |u|
  {
    seq(|u|, i requires 0 <= i < |u| => u[i] * v[i])
  }

  /** The vector with the same entry `k` everywhere. */
  function Const(n: nat, k: int): (r: seq<int>)
    ensures |r| == n
  {
    seq(n, i => k)
  }

  /** The first `n` powers of `s`. */
  function Powers(s: int, n: nat): (r: seq<int>)
    ensures |r| == n
  {
    seq(n, i requires 0 <= i < n => Pow(s, i))
  }

  method ScalarPowers(s: int, n: nat) returns (r: seq<int>)
    ensures r == Powers(s, n)
  {
    r := [];
    var pow := 1;
    for i := 0 to n
      invariant r == Powers(s, i) && pow == Pow(s, i)
    {
      assert Powers(s, i) + [Pow(s, i)] == Powers(s, i + 1);
      r := r + [pow];
      pow := pow * s;
    }
  }

  // ------------------------------------------------------------- linearity

  lemma Distribute(a: int, k: int, b: int, c: int)
    ensures (a + k * b) * c == a * c + k * (b * c)
  {
  }

  lemma {:induction false} DotComb(u: seq<int>, k: int, v: seq<int>, w: seq<int>)
    requires |u| == |v| == |w|
    ensures Dot(Comb(u, k, v), w) == Dot(u, w) + k * Dot(v, w)
  {
    if u != [] {
      DotComb(u[1..], k, v[1..], w[1..]);
      assert Comb(u, k, v)[1..] == Comb(u[1..], k, v[1..]);
      Distribute(u[0], k, v[0], w[0]);
      assert Dot(Comb(u, k, v), w) == (u[0] + k * v[0]) * w[0] + Dot(Comb(u[1..], k, v[1..]), w[1..]);
      Spread(k, v[0] * w[0], Dot(v[1..], w[1..]));
    }
  }

  lemma Spread(k: int, a: int, b: int)
    ensures k * (a + b) == k * a + k * b
  {
  }

  lemma {:induction false} DotSymmetric(a: seq<int>, b: seq<int>)
    requires |a| == |b|
    ensures Dot(a, b) == Dot(b, a)
  {
    if a != [] {
      DotSymmetric(a[1..], b[1..]);
    }
  }

  lemma DotCombRight(u: seq<int>, k: int, v: seq<int>, w: seq<int>)
    requires |u| == |v| == |w|
    ensures Dot(w, Comb(u, k, v)) == Dot(w, u) + k * Dot(w, v)
  {
    DotComb(u, k, v, w);
    DotSymmetric(w, Comb(u, k, v));
    DotSymmetric(w, u);
    DotSymmetric(w, v);
  }

  lemma {:induction false} DotScale(k: int, v: seq<int>, w: seq<int>)
    requires |v| == |w|
    ensures Dot(Scale(k, v), w) == k * Dot(v, w)
  {
    if v != [] {
      DotScale(k, v[1..], w[1..]);
      assert Scale(k, v)[1..] == Scale(k, v[1..]);
      Distribute(0, k, v[0], w[0]);
      Spread(k, v[0] * w[0], Dot(v[1..], w[1..]));
    }
  }

  lemma {:induction false} DotAppend(a: seq<int>, b: seq<int>, c: seq<int>, d: seq<int>)
    requires |a| == |c| && |b| == |d|
    ensures Dot(a + b, c + d) == Dot(a, c) + Dot(b, d)
  {
    if a == [] {
      assert a + b == b && c + d == d;
    } else {
      DotAppend(a[1..], b, c[1..], d);
      assert (a + b)[1..] == a[1..] + b && (c + d)[1..] == c[1..] + d;
    }
  }

  /** Moving an entrywise factor from one side of the inner product to the other. */
  lemma {:induction false} DotTimes(a: seq<int>, b: seq<int>, c: seq<int>)
    requires |a| == |b| == |c|
    ensures Dot(Times(a, b), c) == Dot(a, Times(b, c))
  {
    if a != [] {
      DotTimes(a[1..], b[1..], c[1..]);
      assert Times(a, b)[1..] == Times(a[1..], b[1..]);
      assert Times(b, c)[1..] == Times(b[1..], c[1..]);
      assert (a[0] * b[0]) * c[0] == a[0] * (b[0] * c[0]);
    }
  }

  lemma {:induction false} DotConst(k: int, w: seq<int>)
    ensures Dot(Const(|w|, k), w) == k * Sum(w)
  {
    if w != [] {
      DotConst(k, w[1..]);
      assert Const(|w|, k)[1..] == Const(|w[1..]|, k);
      Spread(k, w[0], Sum(w[1..]));
    }
  }

  lemma {:induction false} DotCong(u: seq<int>, v: seq<int>, w: seq<int>, p: int)
    requires p > 0 && |u| == |v| == |w|
    requires forall i :: 0 <= i < |u| ==> Cong(u[i], v[i], p)
    ensures Cong(Dot(u, w), Dot(v, w), p)
  {
    if u != [] {
      DotCong(u[1..], v[1..], w[1..], p);
      CongScale(w[0], u[0], v[0], p);
      CongAdd(u[0] * w[0], v[0] * w[0], Dot(u[1..], w[1..]), Dot(v[1..], w[1..]), p);
    }
  }

  /** The product of two folded vectors in terms of the four half products. */
  lemma DotFolded(a: seq<int>, j: int, b: seq<int>, c: seq<int>, k: int, d: seq<int>)
    requires |a| == |b| == |c| == |d|
    ensures Dot(Comb(a, j, b), Comb(c, k, d))
         == Dot(a, c) + k * Dot(a, d) + j * Dot(b, c) + (j * k) * Dot(b, d)
  {
    hide Dot, Comb;
    DotComb(a, j, b, Comb(c, k, d));
    DotCombRight(c, k, d, a);
    DotCombRight(c, k, d, b);
    FoldedAlgebra(j, k, Dot(a, c), Dot(a, d), Dot(b, c), Dot(b, d), Dot(a, Comb(c, k, d)), Dot(b, Comb(c, k, d)));
  }

  lemma Associate(j: int, k: int, x: int)
    ensures j * (k * x) == (j * k) * x
  {
  }

  lemma FoldedAlgebra(j: int, k: int, ac: int, ad: int, bc: int, bd: int, aw: int, bw: int)
    requires aw == ac + k * ad && bw == bc + k * bd
    ensures aw + j * bw == ac + k * ad + j * bc + (j * k) * bd
  {
    assert j * bw == j * bc + j * (k * bd);
  }
}
