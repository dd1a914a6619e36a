/** The same bound as a probability: whatever the common pass rate of the two arms is. */
module ErrorRate {
  import opened Binomials
  import opened FisherTest
  import opened TwoLooks

  function Power(x: real, k: nat): real {
    if k == 0 then 1.0 else x * Power(x, k - 1)
  }

  /** The probability of one particular arrangement of t passes among m independent trials. */
  function Likelihood(q: real, m: nat, t: int): real {
    if 0 <= t <= m then Power(q, t) * Power(1.0 - q, m - t) else 0.0
  }

  function Share(weight: int -> nat, q: real, m: nat, t: int): real {
    weight(t) as real * Likelihood(q, m, t)
  }

  /** The sum of weight(t) * Likelihood(t) for t < hi. */
  function Mass(weight: int -> nat, q: real, m: nat, hi: nat): real {
    if hi == 0 then 0.0 else Mass(weight, q, m, hi - 1) + Share(weight, q, m, hi - 1)
  }

  /** The probability that the harness records `holds` for a sentence that does nothing, when each
      trial of either arm passes with probability q. */
  function WronglyHeld(n: nat, q: real): real {
    Mass(HeldRow(n), q, 4 * n, 4 * n + 1)
  }

  function HeldRow(n: nat): int -> nat {
    t => HeldArrangements(n, t)
  }

  lemma {:induction false} PowerNonNegative(x: real, k: nat)
    requires x >= 0.0
    ensures Power(x, k) >= 0.0
  {
    if k > 0 {
      PowerNonNegative(x, k - 1);
    }
  }

  lemma LikelihoodNonNegative(q: real, m: nat, t: int)
    requires 0.0 <= q <= 1.0
    ensures Likelihood(q, m, t) >= 0.0
  {
    if 0 <= t <= m {
      PowerNonNegative(q, t);
      PowerNonNegative(1.0 - q, m - t);
    }
  }

  /** One more trial: it passes with rate q and fails with rate r. */
  lemma LikelihoodStep(q: real, r: real, m: nat, t: int)
    requires m > 0 && r == 1.0 - q
    ensures t > 0 ==> Likelihood(q, m, t) == q * Likelihood(q, m - 1, t - 1)
    ensures t < m ==> Likelihood(q, m, t) == r * Likelihood(q, m - 1, t)
  {
    if 0 < t <= m {
      assert Power(q, t) == q * Power(q, t - 1);
      Associate(q, Power(q, t - 1), Power(r, m - t));
    }
    if 0 <= t < m {
      assert Power(r, m - t) == r * Power(r, m - 1 - t);
      Associate(r, Power(q, t), Power(r, m - 1 - t));
    }
  }

  lemma Associate(a: real, x: real, y: real)
    ensures (a * x) * y == a * (x * y)
    ensures x * (a * y) == a * (x * y)
  {
  }

  function Row(m: nat): int -> nat {
    t => Choose(m, t)
  }

  /** A first trial that passes with rate q and fails with rate r, and what each leads to. */
  function Blend(q: real, r: real, ifPassed: real, ifFailed: real): real {
    q * ifPassed + r * ifFailed
  }

  lemma ShareStep(row: int -> nat, above: int -> nat, beside: int -> nat, q: real, r: real, m: nat, t: nat)
    requires 0 < m && t <= m && r == 1.0 - q && above(-1) == 0 && beside(m) == 0
    requires row(t) == above(t - 1) + beside(t)
    ensures Share(row, q, m, t) == Blend(q, r, Share(above, q, m - 1, t - 1), Share(beside, q, m - 1, t))
  {
    var a, b, l := above(t - 1), beside(t), Likelihood(q, m, t);
    assert (a + b) as real * l == a as real * l + b as real * l;
    LikelihoodStep(q, r, m, t);
    if t > 0 {
      Spread(a as real, q, Likelihood(q, m - 1, t - 1), l);
    }
    if t < m {
      Spread(b as real, r, Likelihood(q, m - 1, t), l);
    }
  }

  /** The mass of the first columns of a row in which each entry is the sum of the one before it in one
      row and the one beside it in another. */
  lemma {:induction false} MassStepOf(row: int -> nat, above: int -> nat, beside: int -> nat, q: real, r: real, m: nat, hi: nat)
    requires 0 < m && hi <= m && r == 1.0 - q && above(-1) == 0 && beside(m) == 0
    requires forall t: int :: row(t) == above(t - 1) + beside(t)
    ensures Mass(row, q, m, hi + 1) == Blend(q, r, Mass(above, q, m - 1, hi), Mass(beside, q, m - 1, hi + 1))
  {
    ShareStep(row, above, beside, q, r, m, hi);
    if hi == 0 {
      assert Mass(row, q, m, 1) == Mass(row, q, m, 0) + Share(row, q, m, 0);
      assert Mass(beside, q, m - 1, 1) == Mass(beside, q, m - 1, 0) + Share(beside, q, m - 1, 0);
    } else {
      MassStepOf(row, above, beside, q, r, m, hi - 1);
      MassGrows(above, q, m - 1, hi - 1);
      MassGrows(beside, q, m - 1, hi);
      Combine(q, r, Mass(above, q, m - 1, hi - 1), Share(above, q, m - 1, hi - 1),
              Mass(beside, q, m - 1, hi), Share(beside, q, m - 1, hi));
    }
  }

  lemma MassGrows(f: int -> nat, q: real, m: nat, hi: nat)
    ensures Mass(f, q, m, hi + 1) == Mass(f, q, m, hi) + Share(f, q, m, hi)
  {
  }

  lemma Combine(q: real, r: real, x: real, s: real, y: real, t: real)
    ensures Blend(q, r, x, y) + Blend(q, r, s, t) == Blend(q, r, x + s, y + t)
  {
  }

  lemma Spread(c: real, a: real, x: real, l: real)
    requires l == a * x
    ensures c * l == a * (c * x)
  {
  }

  lemma MassWithoutLast(f: int -> nat, q: real, m: nat, hi: nat)
    requires f(hi) == 0
    ensures Mass(f, q, m, hi + 1) == Mass(f, q, m, hi)
  {
    assert Share(f, q, m, hi) == 0.0 * Likelihood(q, m, hi);
  }

  lemma MassOfOne(f: int -> nat, q: real)
    ensures Mass(f, q, 0, 1) == f(0) as real
  {
    assert Likelihood(q, 0, 0) == 1.0;
    assert Mass(f, q, 0, 1) == Mass(f, q, 0, 0) + Share(f, q, 0, 0);
  }

  lemma MassSplits(row: int -> nat, above: int -> nat, beside: int -> nat, q: real, m: nat)
    requires 0 < m && above(-1) == 0 && beside(m) == 0
    requires forall t: int :: row(t) == above(t - 1) + beside(t)
    ensures Mass(row, q, m, m + 1) == Blend(q, 1.0 - q, Mass(above, q, m - 1, m), Mass(beside, q, m - 1, m))
  {
    MassStepOf(row, above, beside, q, 1.0 - q, m, m);
    MassWithoutLast(beside, q, m - 1, m);
  }

  /** All arrangements together have probability one. */
  lemma {:induction false} TotalMass(q: real, m: nat)
    ensures Mass(Row(m), q, m, m + 1) == 1.0
  {
    if m == 0 {
      MassOfOne(Row(0), q);
    } else {
      ChooseOutside(m - 1, -1);
      ChooseOutside(m - 1, m);
      MassSplits(Row(m), Row(m - 1), Row(m - 1), q, m);
      TotalMass(q, m - 1);
      assert Blend(q, 1.0 - q, 1.0, 1.0) == 1.0;
    }
  }

  /** One weight never exceeds c times another. */
  ghost predicate AtMost(f: int -> nat, g: int -> nat, c: real) {
    forall t :: f(t) as real <= c * g(t) as real
  }

  lemma {:induction false} MassBound(f: int -> nat, g: int -> nat, c: real, q: real, m: nat, hi: nat)
    requires 0.0 <= q <= 1.0
    requires AtMost(f, g, c)
    ensures Mass(f, q, m, hi) <= c * Mass(g, q, m, hi)
  {
    if hi > 0 {
      MassBound(f, g, c, q, m, hi - 1);
      LikelihoodNonNegative(q, m, hi - 1);
      ShareBound(f(hi - 1) as real, g(hi - 1) as real, c, Likelihood(q, m, hi - 1), Mass(g, q, m, hi - 1));
    }
  }

  lemma ShareBound(x: real, y: real, c: real, l: real, mass: real)
    requires l >= 0.0 && x <= c * y
    ensures x * l <= c * (y * l)
    ensures c * (mass + y * l) == c * mass + c * (y * l)
  {
    assert x * l <= (c * y) * l;
  }

  /** Two at 0.025 keep the whole under 0.05, at every pass rate and every number of trials. */
  lemma WronglyHeldAtMost(n: nat, q: real)
    requires 0.0 <= q <= 1.0
    ensures WronglyHeld(n, q) <= 2.0 * ALPHA == 0.05
  {
    HeldRowAtMost(n);
    MassBound(HeldRow(n), Row(4 * n), 2.0 * ALPHA, q, 4 * n, 4 * n + 1);
    TotalMass(q, 4 * n);
  }

  lemma HeldRowAtMost(n: nat)
    ensures AtMost(HeldRow(n), Row(4 * n), 2.0 * ALPHA)
  {
    forall t: int
      ensures HeldRow(n)(t) as real <= 2.0 * ALPHA * Row(4 * n)(t) as real
    {
      HeldRowBound(n, t);
    }
  }

  lemma HeldRowBound(n: nat, t: int)
    ensures HeldRow(n)(t) as real <= 2.0 * ALPHA * Row(4 * n)(t) as real
  {
    TwoLooksKeepTheError(n, t);
  }
}
