/** Sums of an integer function over the numbers below a bound, and members of finite sets. */
module Sums {

  function SumTo(f: int -> int, n: nat): int
  {
    if n == 0 then 0 else SumTo(f, n - 1) + f(n - 1)
  }

  function Bill(price: int, count: nat): int
  {
    price * count
  }

  lemma Member<T>(s: set<T>) returns (x: T)
    requires |s| > 0
    ensures x in s
  {
    x :| x in s;
  }

  lemma KeyFor<K, V>(m: map<K, V>, value: V) returns (key: K)
    requires value in m.Values
    ensures key in m && m[key] == value
  {
    key :| key in m && m[key] == value;
  }

  lemma SameSize<K, V, W>(m: map<K, V>, m': map<K, W>)
    requires forall key :: key in m <==> key in m'
    ensures m.Keys == m'.Keys && |m| == |m'|
  {
    assert m.Keys == m'.Keys;
  }

  lemma MapGrows<K, V>(m: map<K, V>, key: K, value: V)
    requires key !in m
    ensures |m[key := value]| == |m| + 1
  {
    assert m[key := value].Keys == m.Keys + {key};
  }

  lemma {:induction false} SumSame(f: int -> int, g: int -> int, n: nat)
    requires forall i :: 0 <= i < n ==> f(i) == g(i)
    ensures SumTo(f, n) == SumTo(g, n)
  {
    if n > 0 {
      SumSame(f, g, n - 1);
    }
  }

  /** Changing one term changes the sum by as much. */
  lemma {:induction false} SumChange(f: int -> int, g: int -> int, n: nat, a: int)
    requires 0 <= a < n
    requires forall i :: 0 <= i < n && i != a ==> f(i) == g(i)
    ensures SumTo(g, n) == SumTo(f, n) + g(a) - f(a)
  {
    if a == n - 1 {
      SumSame(f, g, n - 1);
    } else {
      SumChange(f, g, n - 1, a);
    }
  }

  /** Taking `price` off every term in a set takes `price` off per member. */
  lemma {:induction false} SumCharge(f: int -> int, g: int -> int, n: nat, charged: set<int>, price: int)
    requires forall i :: i in charged ==> 0 <= i < n
    requires forall i :: 0 <= i < n ==> g(i) == f(i) - (if i in charged then price else 0)
    ensures SumTo(g, n) == SumTo(f, n) - Bill(price, |charged|)
  {
    if n == 0 {
      if |charged| > 0 {
        var u := Member(charged);
        assert false;
      }
    } else {
      hide SumTo, Bill;
      Unfold(f, n);
      Unfold(g, n);
      var rest := charged - {n - 1};
      SumCharge(f, g, n - 1, rest, price);
      if n - 1 in charged {
        assert charged == rest + {n - 1};
        assert |charged| == |rest| + 1;
        OneMore(price, |rest|, |charged|);
      } else {
        assert charged == rest;
      }
    }
  }

  lemma Unfold(f: int -> int, n: nat)
    requires n > 0
    ensures SumTo(f, n) == SumTo(f, n - 1) + f(n - 1)
  {
  }

  lemma OneMore(price: int, a: nat, b: nat)
    requires b == a + 1
    ensures Bill(price, b) == Bill(price, a) + price
  {
  }

  lemma {:induction false} SumZero(f: int -> int, n: nat)
    requires forall i :: 0 <= i < n ==> f(i) == 0
    ensures SumTo(f, n) == 0
  {
    if n > 0 {
      SumZero(f, n - 1);
    }
  }

  /** A sum of non-negative terms bounds each of them. */
  lemma {:induction false} SumBounds(f: int -> int, n: nat)
    requires forall i :: 0 <= i < n ==> 0 <= f(i)
    ensures 0 <= SumTo(f, n)
    ensures forall i :: 0 <= i < n ==> f(i) <= SumTo(f, n)
  {
    if n > 0 {
      SumBounds(f, n - 1);
    }
  }
}
