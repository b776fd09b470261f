/** Euclidean division, divisibility, congruence and powers over the integers. */
module Arithmetic {

  /** `d` divides `n`. */
  predicate Div(d: int, n: int)
    requires d > 0
  {
    n % d == 0
  }

  /** `a` and `b` are congruent modulo `m`. */
  predicate Cong(a: int, b: int, m: int)
    requires m > 0
  {
    a % m == b % m
  }

  function Pow(b: int, e: nat): int
  {
    if e == 0 then 1 else b * Pow(b, e - 1)
  }

  function ModPow(b: int, e: nat, m: int): int
    requires m > 0
  {
    Pow(b, e) % m
  }

  function Abs(x: int): nat {
    if x < 0 then -x else x
  }

  // ---------------------------------------------------------------- products

  lemma MulPositive(a: int, b: int)
    requires 0 <= a && 0 <= b
    ensures 0 <= a * b
    ensures 0 < a && 0 < b ==> 0 < a * b && a <= a * b && b <= a * b
  {
    if 0 < a && 0 < b {
      assert a * b == a * (b - 1) + a;
      assert a * b == (a - 1) * b + b;
    }
  }

  lemma MulMonotone(a: int, b: int, c: int)
    requires a <= b && 0 <= c
    ensures a * c <= b * c
  {
    MulPositive(b - a, c);
    assert (b - a) * c == b * c - a * c;
  }

  lemma MultipleNearZero(m: int, k: int)
    requires 0 < m && -m < m * k < m
    ensures k == 0
  {
    if k >= 1 {
      MulMonotone(1, k, m);
      assert false;
    }
    if k <= -1 {
      MulMonotone(k, -1, m);
      assert false;
    }
  }

  // ---------------------------------------------------------------- division

  lemma DivModUnique(x: int, q: int, m: int, r: int)
    requires 0 <= r < m && x == m * q + r
    ensures x / m == q && x % m == r
  {
    var k := x / m - q;
    assert m * (x / m) + x % m == x;
    assert m * k == m * (x / m) - m * q;
    MultipleNearZero(m, k);
  }

  lemma DivExact(d: int, n: int)
    requires 0 < d && Div(d, n)
    ensures n == d * (n / d)
  {
  }

  lemma DivIntro(d: int, k: int, n: int)
    requires 0 < d && n == d * k
    ensures Div(d, n) && n / d == k
  {
    DivModUnique(n, k, d, 0);
  }

  lemma DivMul(d: int, n: int, k: int)
    requires 0 < d && Div(d, n)
    ensures Div(d, n * k) && Div(d, k * n)
  {
    DivExact(d, n);
    assert n * k == d * ((n / d) * k);
    DivIntro(d, (n / d) * k, n * k);
  }

  lemma DivSum(d: int, a: int, b: int)
    requires 0 < d && Div(d, a) && Div(d, b)
    ensures Div(d, a + b) && Div(d, a - b)
  {
    DivExact(d, a);
    DivExact(d, b);
    DivIntro(d, a / d + b / d, a + b);
    DivIntro(d, a / d - b / d, a - b);
  }

  lemma DivTrans(a: int, b: int, c: int)
    requires 0 < a && 0 < b && Div(a, b) && Div(b, c)
    ensures Div(a, c)
  {
    DivExact(b, c);
    DivMul(a, b, c / b);
  }

  lemma DivBound(d: int, n: int)
    requires 0 < d && 0 < n && Div(d, n)
    ensures d <= n && 0 < n / d <= n
  {
    DivExact(d, n);
    if n / d <= 0 {
      MulMonotone(n / d, 0, d);
      assert false;
    }
    MulPositive(d, n / d);
  }

  lemma DivCofactor(d: int, n: int)
    requires 0 < d && 0 < n && Div(d, n)
    ensures n / d > 0 && Div(n / d, n) && n / (n / d) == d
  {
    DivExact(d, n);
    DivBound(d, n);
    DivIntro(n / d, d, n);
  }

  // --------------------------------------------------------------- congruence

  lemma CongDiff(a: int, b: int, m: int)
    requires 0 < m
    ensures Cong(a, b, m) <==> Div(m, a - b)
  {
    var qa, qb := a / m, b / m;
    assert a == m * qa + a % m && b == m * qb + b % m;
    if Cong(a, b, m) {
      DivIntro(m, qa - qb, a - b);
    }
    if Div(m, a - b) {
      DivExact(m, a - b);
      var k := (a - b) / m;
      DivModUnique(a, k + qb, m, b % m);
    }
  }

  lemma CongMod(a: int, m: int)
    requires 0 < m
    ensures Cong(a % m, a, m)
  {
    DivModUnique(a % m, 0, m, a % m);
  }

  lemma CongAdd(a: int, b: int, c: int, d: int, m: int)
    requires 0 < m && Cong(a, b, m) && Cong(c, d, m)
    ensures Cong(a + c, b + d, m) && Cong(a - c, b - d, m)
  {
    CongDiff(a, b, m);
    CongDiff(c, d, m);
    DivSum(m, a - b, c - d);
    assert (a - b) + (c - d) == (a + c) - (b + d);
    assert (a - b) - (c - d) == (a - c) - (b - d);
    CongDiff(a + c, b + d, m);
    CongDiff(a - c, b - d, m);
  }

  lemma CongMul(a: int, b: int, c: int, d: int, m: int)
    requires 0 < m && Cong(a, b, m) && Cong(c, d, m)
    ensures Cong(a * c, b * d, m)
  {
    CongDiff(a, b, m);
    CongDiff(c, d, m);
    DivMul(m, a - b, c);
    DivMul(m, c - d, b);
    assert (a - b) * c + b * (c - d) == a * c - b * d;
    DivSum(m, (a - b) * c, b * (c - d));
    CongDiff(a * c, b * d, m);
  }

  lemma CongScale(k: int, a: int, b: int, m: int)
    requires 0 < m && Cong(a, b, m)
    ensures Cong(k * a, k * b, m) && Cong(a * k, b * k, m)
  {
    CongMul(k, k, a, b, m);
    CongMul(a, b, k, k, m);
  }

  lemma {:induction false} CongPow(a: int, b: int, e: nat, m: int)
    requires 0 < m && Cong(a, b, m)
    ensures Cong(Pow(a, e), Pow(b, e), m)
  {
    if e > 0 {
      CongPow(a, b, e - 1, m);
      CongMul(a, b, Pow(a, e - 1), Pow(b, e - 1), m);
    }
  }

  lemma CongDivisor(a: int, b: int, d: int, m: int)
    requires 0 < m && 0 < d && Div(d, m) && Cong(a, b, m)
    ensures Cong(a, b, d)
  {
    CongDiff(a, b, m);
    DivTrans(d, m, a - b);
    CongDiff(a, b, d);
  }

  lemma CongSmall(a: int, b: int, m: int)
    requires 0 <= a < m && 0 <= b < m && Cong(a, b, m)
    ensures a == b
  {
    DivModUnique(a, 0, m, a);
    DivModUnique(b, 0, m, b);
  }

  // ------------------------------------------------------------------- powers

  lemma {:induction false} PowAdd(b: int, e: nat, f: nat)
    ensures Pow(b, e + f) == Pow(b, e) * Pow(b, f)
  {
    if e > 0 {
      PowAdd(b, e - 1, f);
      assert b * (Pow(b, e - 1) * Pow(b, f)) == (b * Pow(b, e - 1)) * Pow(b, f);
    }
  }

  lemma {:induction false} PowOne(e: nat)
    ensures Pow(1, e) == 1
  {
    if e > 0 {
      PowOne(e - 1);
    }
  }

  lemma {:induction false} PowMul(b: int, e: nat, f: nat)
    ensures 0 <= e * f && Pow(b, e * f) == Pow(Pow(b, e), f)
  {
    MulPositive(e, f);
    if f == 0 {
      assert e * f == 0;
    } else {
      PowMul(b, e, f - 1);
      assert e * f == e + e * (f - 1);
      PowAdd(b, e, e * (f - 1));
    }
  }

  lemma {:induction false} PowPositive(b: int, e: nat)
    requires 0 < b
    ensures 0 < Pow(b, e)
  {
    if e > 0 {
      PowPositive(b, e - 1);
      MulPositive(b, Pow(b, e - 1));
    }
  }

  lemma DivPow(b: int, e: nat)
    requires 0 < b && 0 < e
    ensures Div(b, Pow(b, e))
  {
    DivIntro(b, Pow(b, e - 1), Pow(b, e));
  }

  lemma {:induction false} PowGrows(b: int, e: nat, f: nat)
    requires 1 < b && e < f
    ensures 0 < Pow(b, e) < Pow(b, f)
  {
    PowPositive(b, e);
    PowPositive(b, f - 1);
    MulMonotone(2, b, Pow(b, f - 1));
    if e < f - 1 {
      PowGrows(b, e, f - 1);
    }
  }

  lemma PowSquare(b: int)
    ensures Pow(b, 1) == b && Pow(b, 2) == b * b
  {
    assert Pow(b, 1) == b * Pow(b, 0);
    assert Pow(b, 2) == b * Pow(b, 1);
  }

  lemma PowFirst(a: int, m: int)
    requires m > 0
    ensures Cong(Pow(a, 1), a, m)
  {
    PowSquare(a);
  }

  /** Powers with known residues multiply. */
  lemma PowTimes(a: int, e: nat, x: int, f: nat, y: int, z: int, m: int)
    requires m > 0 && Cong(Pow(a, e), x, m) && Cong(Pow(a, f), y, m) && (x * y) % m == z
    ensures Cong(Pow(a, e + f), z, m)
  {
    PowAdd(a, e, f);
    CongMul(Pow(a, e), x, Pow(a, f), y, m);
    CongMod(x * y, m);
  }
}
