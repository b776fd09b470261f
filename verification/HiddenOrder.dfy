/** The group of residues up to sign modulo an RSA number (rsa/src/hog/mod.rs), and the laws its powers obey. */
module HiddenOrder {
  import opened Arithmetic

  /** The smaller of a residue and its negation. */
  function Canon(m: int, a: int): int
  {
    if a <= m - a then a else m - a
  }

  /** The remainder that takes the sign of the dividend. */
  function Rem(a: int, m: int): int
    requires m > 0
  {
    if a >= 0 then a % m else -((-a) % m)
  }

  function Op(m: int, a: int, b: int): int
    requires m > 0
  {
    Canon(m, Rem(a * b, m))
  }

  function Power(m: int, n: int, e: nat): int
    requires m > 0
  {
    Canon(m, Pow(n, e) % m)
  }

  predicate UpToSign(m: int, a: int, b: int)
    requires m > 0
  {
    Cong(a, b, m) || Cong(a, -b, m)
  }

  function TwoTo(t: nat): (e: nat)
    ensures e > 0 && e == Pow(2, t)
  {
    PowPositive(2, t);
    Pow(2, t)
  }

  // ------------------------------------------------------- canonical elements

  lemma NegationMod(m: int, b: int)
    requires m > 0
    ensures (-b) % m == if b % m == 0 then 0 else m - b % m
  {
    var q, r := b / m, b % m;
    assert b == m * q + r;
    if r == 0 {
      DivModUnique(-b, -q, m, 0);
    } else {
      assert -b == m * (-q - 1) + (m - r);
      DivModUnique(-b, -q - 1, m, m - r);
    }
  }

  /** Two integers have the same canonical element exactly when they are congruent up to sign. */
  lemma CanonDecides(m: int, a: int, b: int)
    requires m > 0
    ensures Canon(m, a % m) == Canon(m, b % m) <==> UpToSign(m, a, b)
  {
    NegationMod(m, b);
  }

  /** A canonical element represents the integer it was made from. */
  lemma CanonRepresents(m: int, a: int)
    requires m > 0
    ensures UpToSign(m, Canon(m, a % m), a) && 0 <= Canon(m, a % m) < m
  {
    var r := a % m;
    assert r % m == r;
    if r > m - r {
      NegationMod(m, a);
      DivModUnique(m - r, 0, m, m - r);
    }
  }

  lemma ProductUpToSign(m: int, a: int, b: int, c: int, d: int)
    requires m > 0 && UpToSign(m, a, b) && UpToSign(m, c, d)
    ensures UpToSign(m, a * c, b * d)
  {
    var b', d' := if Cong(a, b, m) then b else -b, if Cong(c, d, m) then d else -d;
    CongMul(a, b', c, d', m);
    SignedProduct(b, d);
  }

  lemma SignedProduct(b: int, d: int)
    ensures (-b) * d == -(b * d) && b * (-d) == -(b * d) && (-b) * (-d) == b * d
  {
  }

  lemma {:induction false} PowUpToSign(m: int, a: int, b: int, e: nat)
    requires m > 0 && UpToSign(m, a, b)
    ensures UpToSign(m, Pow(a, e), Pow(b, e))
  {
    hide UpToSign;
    if e == 0 {
      SameElement(m, 1);
    } else {
      PowUpToSign(m, a, b, e - 1);
      ProductUpToSign(m, a, b, Pow(a, e - 1), Pow(b, e - 1));
    }
  }

  lemma SameElement(m: int, a: int)
    requires m > 0
    ensures UpToSign(m, a, a)
  {
  }

  // ------------------------------------------------------------------ the laws

  /** A power of a power is the power to the product. */
  lemma PowerPower(m: int, x: int, a: nat, b: nat)
    requires m > 0
    ensures a * b >= 0 && Power(m, Power(m, x, a), b) == Power(m, x, a * b)
  {
    hide UpToSign;
    MulPositive(a, b);
    CanonRepresents(m, Pow(x, a));
    PowUpToSign(m, Power(m, x, a), Pow(x, a), b);
    PowMul(x, a, b);
    CanonDecides(m, Pow(Power(m, x, a), b), Pow(x, a * b));
  }

  /** The product of two powers is the power to the sum. */
  lemma PowerSum(m: int, x: int, a: nat, b: nat)
    requires m > 0
    ensures Op(m, Power(m, x, a), Power(m, x, b)) == Power(m, x, a + b)
  {
    hide UpToSign, Pow;
    var p, q := Power(m, x, a), Power(m, x, b);
    CanonRepresents(m, Pow(x, a));
    CanonRepresents(m, Pow(x, b));
    ProductUpToSign(m, p, Pow(x, a), q, Pow(x, b));
    PowAdd(x, a, b);
    MulPositive(p, q);
    CanonDecides(m, p * q, Pow(x, a + b));
  }

  /** Exponents may be swapped. */
  lemma PowersCommute(m: int, x: int, a: nat, b: nat)
    requires m > 0
    ensures Power(m, Power(m, x, a), b) == Power(m, Power(m, x, b), a)
  {
    PowerPower(m, x, a, b);
    PowerPower(m, x, b, a);
    assert a * b == b * a;
  }

  /** `order` is an exponent that takes `x` to the identity. */
  predicate Kills(m: int, x: int, order: int)
    requires m > 0
  {
    order > 0 && Power(m, x, order) == Power(m, x, 0)
  }

  /** Exponents of an element may be reduced modulo any exponent that takes it to the identity. */
  lemma ReducedExponent(m: int, x: int, order: int, e: nat)
    requires m > 0 && Kills(m, x, order)
    ensures e % order >= 0 && Power(m, x, e % order) == Power(m, x, e)
  {
    hide Power;
    var q, r := e / order, e % order;
    Division(e, order);
    PowerPower(m, x, order, q);
    PowerPower(m, x, 0, q);
    assert 0 * q == 0;
    PowerSum(m, x, order * q, r);
    PowerSum(m, x, 0, r);
  }

  lemma Division(e: nat, d: int)
    requires d > 0
    ensures e / d >= 0 && e % d >= 0 && d * (e / d) >= 0 && e == d * (e / d) + e % d
  {
    if e / d < 0 {
      MulMonotone(e / d, -1, d);
      assert false;
    }
    MulPositive(d, e / d);
  }
}
