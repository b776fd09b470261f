/** Bytes: exclusive-or and the two byte orders of natural numbers. */
module Bytes {
  import opened Arithmetic

  type byte = x: int | 0 <= x < 256

  /** Bitwise exclusive-or of the low `k` bits. */
  function XorBits(a: nat, b: nat, k: nat): (r: nat)
    ensures r < Pow(2, k)
    decreases k
  {
    if k == 0 then 0 else (a % 2 + b % 2) % 2 + 2 * XorBits(a / 2, b / 2, k - 1)
  }

  lemma {:induction false} XorTwice(a: nat, b: nat, k: nat)
    requires a < Pow(2, k)
    ensures XorBits(XorBits(a, b, k), b, k) == a
    decreases k
  {
    if k > 0 {
      XorTwice(a / 2, b / 2, k - 1);
      XorLowBit(a, b, XorBits(a / 2, b / 2, k - 1));
    }
  }

  lemma XorLowBit(a: nat, b: nat, rest: nat)
    ensures var x := (a % 2 + b % 2) % 2 + 2 * rest;
            x / 2 == rest && x % 2 == (a % 2 + b % 2) % 2 && (x % 2 + b % 2) % 2 == a % 2
  {
  }

  /** Bit `i` of a number. */
  function Bit(a: nat, i: nat): nat
  {
    if i == 0 then a % 2 else Bit(a / 2, i - 1)
  }

  /** Each bit of the result says whether the two bits differ. */
  lemma {:induction false} XorBitwise(a: nat, b: nat, k: nat, i: nat)
    requires i < k
    ensures Bit(XorBits(a, b, k), i) == if Bit(a, i) == Bit(b, i) then 0 else 1
    decreases i
  {
    XorLowBit(a, b, XorBits(a / 2, b / 2, k - 1));
    if i > 0 {
      XorBitwise(a / 2, b / 2, k - 1, i - 1);
    }
  }

  lemma EightBits()
    ensures Pow(2, 8) == 256
  {
    assert Pow(2, 4) == 16;
    PowAdd(2, 4, 4);
  }

  function Xor(a: byte, b: byte): byte
  {
    EightBits();
    XorBits(a, b, 8)
  }

  function XorAll(a: seq<byte>, pad: seq<byte>): (r: seq<byte>)
    requires |a| <= |pad|
    ensures |r| == |a|
  {
    seq(|a|, i requires 0 <= i < |a| => Xor(a[i], pad[i]))
  }

  /** The pad cancels itself. */
  lemma XorAllTwice(a: seq<byte>, pad: seq<byte>)
    requires |a| <= |pad|
    ensures XorAll(XorAll(a, pad), pad) == a
  {
    EightBits();
    forall i | 0 <= i < |a| ensures XorAll(XorAll(a, pad), pad)[i] == a[i] {
      XorTwice(a[i], pad[i], 8);
    }
  }

  function FromLE(m: seq<byte>): nat
  {
    if m == [] then 0 else m[0] + 256 * FromLE(m[1..])
  }

  function FromBE(m: seq<byte>): nat
  {
    if m == [] then 0 else FromBE(m[..|m| - 1]) * 256 + m[|m| - 1]
  }

  function ToBE(n: nat, len: nat): (r: seq<byte>)
    ensures |r| == len
  {
    if len == 0 then [] else ToBE(n / 256, len - 1) + [n % 256]
  }

  /** Fixed-width big-endian encoding loses nothing that fits. */
  lemma {:induction false} BERoundTrip(n: nat, len: nat)
    requires n < Pow(256, len)
    ensures FromBE(ToBE(n, len)) == n
  {
    if len > 0 {
      var r := ToBE(n, len);
      assert r[..|r| - 1] == ToBE(n / 256, len - 1);
      assert n / 256 < Pow(256, len - 1);
      BERoundTrip(n / 256, len - 1);
    }
  }
}
