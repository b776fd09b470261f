/** Natural numbers as limbs of a prime field (rsa/src/bigint/mod.rs). */
module Limbs {
  import opened Arithmetic
  import opened Outcomes

  /** The power of two that a width stands for. */
  function Base(w: nat): (b: nat)
    ensures b > 0 && b == Pow(2, w)
  {
    PowPositive(2, w);
    Pow(2, w)
  }

  /** The number of bits of `n`; none for zero. */
  function Bits(n: nat): nat
  {
    if n == 0 then 0 else 1 + Bits(n / 2)
  }

  /** A width within `capacity` always fits the field of order `p`. */
  ghost predicate Capacity(p: nat, capacity: nat)
  {
    forall w: nat :: w <= capacity ==> Base(w) < p
  }

  function NatToF(p: nat, n: int): Option<nat>
  {
    if 0 <= n < p then Some(n) else None
  }

  /** A limb below what the higher limbs stand for. */
  function Join(low: nat, b: nat, high: nat): nat
  {
    low + b * high
  }

  function LimbsToNat(limbs: seq<nat>, w: nat): nat
  {
    if limbs == [] then 0 else Join(limbs[0], Base(w), LimbsToNat(limbs[1..], w))
  }

  /** The bits under the mask. */
  function Low(n: nat, w: nat): nat
  {
    n % Base(w)
  }

  /** What is left after the shift. */
  function High(n: nat, w: nat): nat
  {
    n / Base(w)
  }

  function NatLimbs(n: nat, w: nat, count: nat): (r: seq<nat>)
    ensures |r| == count
    decreases count
  {
    if count == 0 then [] else [Low(n, w)] + NatLimbs(High(n, w), w, count - 1)
  }

  /** The first number that no longer fits. */
  function Limit(w: nat, count: nat): nat
  {
    Base(count * w)
  }

  // ------------------------------------------------------------------ round trips

  lemma LimitZero(w: nat)
    ensures Limit(w, 0) == 1
  {
    assert 0 * w == 0;
  }

  lemma LimitStep(w: nat, count: nat)
    requires count > 0
    ensures Limit(w, count) == Base(w) * Limit(w, count - 1)
  {
    assert count * w == w + (count - 1) * w;
    PowAdd(2, w, (count - 1) * w);
  }

  /** Splitting off the low limb leaves a number that fits the other limbs. */
  lemma Split(n: nat, w: nat, count: nat)
    requires count > 0 && n < Limit(w, count)
    ensures High(n, w) < Limit(w, count - 1) && Low(n, w) < Base(w)
    ensures Join(Low(n, w), Base(w), High(n, w)) == n
  {
    LimitStep(w, count);
    hide Base, Limit;
    SplitParts(n, Base(w), Limit(w, count - 1));
  }

  lemma SplitParts(n: nat, b: nat, c: nat)
    requires b > 0 && n < b * c
    ensures n / b < c && n % b < b && n % b + b * (n / b) == n
  {
    if n / b >= c {
      MulMonotone(c, n / b, b);
    }
  }

  /** Joining undoes splitting. */
  lemma SplitOfJoin(low: nat, w: nat, high: nat, count: nat)
    requires low < Base(w) && high < Limit(w, count)
    ensures Low(Join(low, Base(w), high), w) == low && High(Join(low, Base(w), high), w) == high
    ensures Join(low, Base(w), high) < Limit(w, count + 1)
  {
    LimitStep(w, count + 1);
    hide Base, Limit;
    DivModUnique(low + Base(w) * high, high, Base(w), low);
    JoinBound(low, Base(w), high, Limit(w, count));
  }

  lemma JoinBound(low: nat, b: nat, high: nat, c: nat)
    requires low < b && high < c
    ensures low + b * high < b * c
  {
    MulMonotone(high + 1, c, b);
    assert (high + 1) * b == b * high + b && c * b == b * c;
  }

  /** Every number that fits comes back from its limbs, each of which is within the width. */
  lemma {:induction false} LimbsRoundTrip(n: nat, w: nat, count: nat)
    requires n < Limit(w, count)
    ensures LimbsToNat(NatLimbs(n, w, count), w) == n
    ensures forall i :: 0 <= i < count ==> NatLimbs(n, w, count)[i] < Base(w)
    decreases count
  {
    hide Base, Limit, Join, Low, High;
    if count == 0 {
      LimitZero(w);
    } else {
      Split(n, w, count);
      LimbsRoundTrip(High(n, w), w, count - 1);
    }
  }

  /** Limbs within the width come back from the number they stand for, which fits. */
  lemma {:induction false} NumberRoundTrip(limbs: seq<nat>, w: nat)
    requires forall i :: 0 <= i < |limbs| ==> limbs[i] < Base(w)
    ensures NatLimbs(LimbsToNat(limbs, w), w, |limbs|) == limbs
    ensures LimbsToNat(limbs, w) < Limit(w, |limbs|)
  {
    hide Base, Limit, Join, Low, High;
    if limbs == [] {
      LimitZero(w);
    } else {
      NumberRoundTrip(limbs[1..], w);
      SplitOfJoin(limbs[0], w, LimbsToNat(limbs[1..], w), |limbs| - 1);
    }
  }

  // ---------------------------------------------------------------- counting bits

  /** A number has at most `b` bits exactly when it is below `2^b`. */
  lemma {:induction false} FewBits(n: nat, b: nat)
    ensures Bits(n) <= b <==> n < Base(b)
    decreases b
  {
    if b > 0 && n > 0 {
      FewBits(n / 2, b - 1);
      assert Base(b) == 2 * Base(b - 1);
    }
  }

  lemma LimbCountSuffices(bits: nat, w: nat)
    requires w > 0
    ensures bits <= Room(w, bits / w + 1)
  {
    assert bits == bits / w * w + bits % w;
    assert (bits / w + 1) * w == bits / w * w + w;
  }

  /** The bits that so many limbs hold. */
  function Room(w: nat, count: nat): nat
  {
    count * w
  }

  lemma FitsRoom(n: nat, w: nat, count: nat)
    ensures Bits(n) <= Room(w, count) <==> n < Limit(w, count)
  {
    FewBits(n, count * w);
  }

  lemma LowBelow(n: nat, w: nat)
    ensures Low(n, w) < Base(w)
  {
  }

  // ------------------------------------------------------------------- the code

  /** The fold runs from the last limb to the first, shifting and adding. */
  method FoldLimbs(limbs: seq<nat>, w: nat) returns (acc: nat)
    ensures acc == LimbsToNat(limbs, w)
  {
    acc := 0;
    var i := |limbs|;
    while i > 0
      invariant 0 <= i <= |limbs|
      invariant acc == LimbsToNat(limbs[i..], w)
    {
      i := i - 1;
      assert limbs[i..][1..] == limbs[i + 1..];
      acc := Base(w) * acc;
      acc := acc + limbs[i];
    }
    assert limbs[0..] == limbs;
  }

  /**
   * The limbs of `n`, low limb first. A negative number, or a width beyond the field's capacity, stops the
   * program; a number with too many bits is an error.
   */
  method NatToLimbs(p: nat, capacity: nat, n: int, w: nat, count: nat) returns (r: Outcome<Option<seq<nat>>>)
    requires Capacity(p, capacity)
    ensures r.Panic? <==> n < 0 || w > capacity
    ensures r.Done? ==> (r.value.Some? <==> n < Limit(w, count))
    ensures r.Done? && r.value.Some? ==> r.value.value == NatLimbs(n, w, count)
  {
    hide Base, Bits, Low, High, Limit;
    if n < 0 || w > capacity {
      return Panic;
    }
    var room := Room(w, count);
    FitsRoom(n, w, count);
    hide Room;
    if Bits(n) > room {
      return Done(None);
    }
    var limbs: seq<nat> := [];
    var left: nat := n;
    var i := 0;
    while i < count
      invariant 0 <= i <= count
      invariant limbs + NatLimbs(left, w, count - i) == NatLimbs(n, w, count)
    {
      var low := Low(left, w);
      LowBelow(left, w);
      ghost var rest := NatLimbs(High(left, w), w, count - i - 1);
      assert limbs + ([low] + rest) == (limbs + [low]) + rest;
      assert Base(w) < p;
      match NatToF(p, low) {
        case Some(f) => limbs := limbs + [f];
        case None => assert false;
      }
      left := High(left, w);
      i := i + 1;
    }
    return Done(Some(limbs));
  }

  /** As many limbs as the number needs: apart from a zero width and what stops `NatToLimbs`, it never fails. */
  method FitNatToLimbs(p: nat, capacity: nat, n: int, w: nat) returns (r: Outcome<Option<seq<nat>>>)
    requires Capacity(p, capacity)
    ensures r.Panic? <==> n < 0 || w > capacity || w == 0
    ensures r.Done? ==> r.value.Some? && LimbsToNat(r.value.value, w) == n
    ensures r.Done? ==> forall i :: 0 <= i < |r.value.value| ==> r.value.value[i] < Base(w)
  {
    hide Base, Bits, Limit, Room, NatLimbs, LimbsToNat;
    if w == 0 {
      return Panic;
    }
    var bits := Bits(if n < 0 then -n else n);
    var count := bits / w + 1;
    r := NatToLimbs(p, capacity, n, w, count);
    if r.Done? {
      LimbCountSuffices(bits, w);
      FitsRoom(n, w, count);
      LimbsRoundTrip(n, w, count);
    }
  }
}
