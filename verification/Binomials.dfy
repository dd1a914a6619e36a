/** Binomial coefficients, Vandermonde's identity, and the symmetry of the hypergeometric weights. */
module Binomials {
  import opened FiniteSums

  /** The number of k-element subsets of n things; zero outside 0 <= k <= n. */
  function Choose(n: nat, k: int): nat {
    if n == 0 then if k == 0 then 1 else 0
    else Choose(n - 1, k - 1) + Choose(n - 1, k)
  }

  lemma {:induction false} ChooseOutside(n: nat, k: int)
    requires k < 0 || k > n
    ensures Choose(n, k) == 0
  {
    if n > 0 {
      ChooseOutside(n - 1, k - 1);
      ChooseOutside(n - 1, k);
    }
  }

  lemma {:induction false} ChoosePositive(n: nat, k: int)
    requires 0 <= k <= n
    ensures Choose(n, k) > 0
  {
    if n > 0 {
      if k > 0 { ChoosePositive(n - 1, k - 1); } else { ChoosePositive(n - 1, k); }
    }
  }

  lemma {:induction false} ChooseSymmetric(n: nat, k: int)
    ensures Choose(n, k) == Choose(n, n - k)
  {
    if n > 0 {
      ChooseSymmetric(n - 1, k - 1);
      ChooseSymmetric(n - 1, k);
    }
  }

  /** The term of Vandermonde's identity: k of the first a things, the rest of the m from the other b. */
  function Split(a: nat, b: nat, m: int): int -> nat {
    k => Choose(a, k) * Choose(b, m - k)
  }

  /** Whether the last of the a things is among the k taken, or not. */
  lemma SplitStep(a: nat, b: nat, m: int, k: int)
    requires a > 0
    ensures Split(a, b, m)(k) == Split(a - 1, b, m - 1)(k - 1) + Split(a - 1, b, m)(k)
  {
    var x, y, z := Choose(a - 1, k - 1), Choose(a - 1, k), Choose(b, m - k);
    assert Choose(a, k) == x + y;
    assert (x + y) * z == x * z + y * z;
    assert m - 1 - (k - 1) == m - k;
  }

  lemma {:induction false} Vandermonde(a: nat, b: nat, m: int)
    ensures Sum(Split(a, b, m), 0, m + 1) == Choose(a + b, m)
    decreases a
  {
    if m < 0 {
      ChooseOutside(a + b, m);
    } else if a == 0 {
      SumSingle(Split(a, b, m), 0, 0, m + 1);
    } else {
      forall k | 0 <= k < m + 1
        ensures Split(a, b, m)(k) == Split(a - 1, b, m - 1)(k - 1) + Split(a - 1, b, m)(k)
      {
        SplitStep(a, b, m, k);
      }
      ChooseOutside(a - 1, -1);
      SumOfSteps(Split(a, b, m), Split(a - 1, b, m - 1), Split(a - 1, b, m), m);
      Vandermonde(a - 1, b, m - 1);
      Vandermonde(a - 1, b, m);
    }
  }

  /** The same sum over the first factor's whole range. */
  lemma VandermondeOver(a: nat, b: nat, m: int)
    ensures Sum(Split(a, b, m), 0, a + 1) == Choose(a + b, m)
  {
    Vandermonde(a, b, m);
    forall k: int
      ensures k > a ==> Split(a, b, m)(k) == 0
      ensures k > m ==> Split(a, b, m)(k) == 0
    {
      if k > a { ChooseOutside(a, k); }
      if k > m { ChooseOutside(b, m - k); }
    }
    var top := if m > a then m else a;
    if m < 0 {
      SumZero(Split(a, b, m), 0, a + 1);
    } else {
      SumWiden(Split(a, b, m), 0, a + 1, 0, top + 1);
      SumWiden(Split(a, b, m), 0, m + 1, 0, top + 1);
    }
  }

  function Factorial(n: nat): (f: nat)
    ensures f > 0
  {
    if n == 0 then 1 else n * Factorial(n - 1)
  }

  lemma FactorialStep(a: nat, b: nat, k: nat, l: nat, x: nat, y: nat, f: nat)
    requires a * (x * (l * y)) == f
    requires b * ((k * x) * y) == f
    ensures (a + b) * ((k * x) * (l * y)) == (k + l) * f
  {
    assert (a + b) * ((k * x) * (l * y)) == k * (a * (x * (l * y))) + l * (b * ((k * x) * y));
  }

  lemma {:induction false} ChooseFactorial(n: nat, k: int)
    requires 0 <= k <= n
    ensures Choose(n, k) * (Factorial(k) * Factorial(n - k)) == Factorial(n)
  {
    if n == 0 || k == 0 {
      ChooseFromNone(n);
    } else if k == n {
      ChooseSymmetric(n, k);
      ChooseFromNone(n);
    } else {
      ChooseFactorial(n - 1, k - 1);
      ChooseFactorial(n - 1, k);
      var a, b, x, y := Choose(n - 1, k - 1), Choose(n - 1, k), Factorial(k - 1), Factorial(n - 1 - k);
      assert Factorial(k) == k * x && Factorial(n - k) == (n - k) * y;
      assert n - 1 - (k - 1) == n - k && Choose(n, k) == a + b && Factorial(n) == n * Factorial(n - 1);
      FactorialStep(a, b, k, n - k, x, y, Factorial(n - 1));
    }
  }

  lemma {:induction false} ChooseFromNone(n: nat)
    ensures Choose(n, 0) == 1
  {
    if n > 0 {
      ChooseFromNone(n - 1);
      ChooseOutside(n - 1, -1);
    }
  }

  lemma CancelFactor(x: nat, y: nat, p: nat)
    requires p > 0
    requires x * p == y * p
    ensures x == y
  {
    assert (x - y) * p == 0;
  }

  lemma ThreeFactors(p: nat, q: nat, x: nat, y: nat, z: nat)
    ensures p * q * (x * y * z) == p * (x * (q * (y * z)))
    ensures p * q * (x * y * z) == p * ((q * (x * y)) * z)
    ensures x * y * z == y * x * z
    ensures x > 0 && y > 0 && z > 0 ==> x * y * z > 0
  {
    if x > 0 && y > 0 && z > 0 {
      assert x * y > 0;
    }
  }

  /** Picking a of m things and then b of the rest counts the ways to cut m into a, b and m - a - b. */
  lemma TwoPicks(m: nat, a: nat, b: nat)
    requires a + b <= m
    ensures Choose(m, a) * Choose(m - a, b) * (Factorial(a) * Factorial(b) * Factorial(m - a - b)) == Factorial(m)
  {
    ChooseFactorial(m, a);
    ChooseFactorial(m - a, b);
    ThreeFactors(Choose(m, a), Choose(m - a, b), Factorial(a), Factorial(b), Factorial(m - a - b));
  }

  /** The order in which two disjoint groups are picked does not matter. */
  lemma PickOrder(m: nat, a: nat, b: nat)
    requires a + b <= m
    ensures Choose(m, a) * Choose(m - a, b) == Choose(m, b) * Choose(m - b, a)
  {
    TwoPicks(m, a, b);
    TwoPicks(m, b, a);
    ThreeFactors(0, 0, Factorial(a), Factorial(b), Factorial(m - a - b));
    CancelFactor(Choose(m, a) * Choose(m - a, b), Choose(m, b) * Choose(m - b, a),
                 Factorial(a) * Factorial(b) * Factorial(m - a - b));
  }

  /** A group of t chosen from m with k of it marked: mark first, or choose first. */
  lemma PickThenMark(m: nat, t: nat, k: nat)
    requires k <= t <= m
    ensures Choose(m, t) * Choose(t, k) == Choose(m, k) * Choose(m - k, t - k)
  {
    ChooseFactorial(m, t);
    ChooseFactorial(t, k);
    TwoPicks(m, k, t - k);
    assert m - k - (t - k) == m - t;
    ThreeFactors(Choose(m, t), Choose(t, k), Factorial(k), Factorial(t - k), Factorial(m - t));
    CancelFactor(Choose(m, t) * Choose(t, k), Choose(m, k) * Choose(m - k, t - k),
                 Factorial(k) * Factorial(t - k) * Factorial(m - t));
  }

  lemma ThreeProducts(a: nat, b: nat, c: nat, d: nat, e: nat, f: nat, g: nat, h: nat, i: nat)
    requires a * b == e * f
    requires f * c == g * d
    requires e * g == h * i
    ensures b * c * a == i * d * h
  {
    assert b * c * a == (a * b) * c == e * (f * c) == (e * g) * d == i * d * h;
  }

  /** The hypergeometric law read from either side: k of the t passes fall in the first half of 2n
      trials, or k of the first half's n trials are among the t passes. */
  lemma HypergeometricDuality(n: nat, t: nat, k: int)
    requires t <= 2 * n
    ensures Choose(t, k) * Choose(2 * n - t, n - k) * Choose(2 * n, t)
         == Choose(n, k) * Choose(n, t - k) * Choose(2 * n, n)
  {
    if k < 0 || k > t || k > n || t - k > n {
      if k < 0 || k > t {
        ChooseOutside(t, k);
      } else {
        ChooseOutside(2 * n - t, n - k);
      }
      if k < 0 || k > n {
        ChooseOutside(n, k);
      } else {
        ChooseOutside(n, t - k);
      }
    } else {
      DualityInside(n, t, k);
    }
  }

  lemma DualityInside(n: nat, t: nat, k: nat)
    requires t <= 2 * n && k <= t && k <= n && t - k <= n
    ensures Choose(t, k) * Choose(2 * n - t, n - k) * Choose(2 * n, t)
         == Choose(n, k) * Choose(n, t - k) * Choose(2 * n, n)
  {
    var m := 2 * n;
    PickThenMark(m, t, k);
    PickOrder(m - k, t - k, n - k);
    PickThenMark(m, n, k);
    assert m - k - (t - k) == m - t && m - k - (n - k) == n;
    ThreeProducts(Choose(m, t), Choose(t, k), Choose(m - t, n - k), Choose(n, t - k),
                  Choose(m, k), Choose(m - k, t - k), Choose(m - k, n - k), Choose(m, n), Choose(n, k));
  }
}
