/**
 The one-sided Fisher exact test that judges a sentence, taken exactly: p is a rational number, so
 the comparison with ALPHA has no rounding in it (evals/harness.py).
 */
module FisherTest {
  import opened FiniteSums
  import opened Binomials
  import opened Draws

  const ALPHA: real := 0.025
  const LOOKS: nat := 2

  datatype Verdict = Holds | NotReproduced | Undecided | DoesNotHold

  /** The ways k of `passed` passes fall in the `with` arm, when 2 * trials trials are cut in two halves. */
  function Overlap(passed: nat, trials: nat): int -> nat
    requires passed <= 2 * trials
  {
    k => Choose(passed, k) * Choose(2 * trials - passed, trials - k)
  }

  function Min(a: int, b: int): int {
    if a < b then a else b
  }

  /** The numerator of p: every split in which the `with` arm is at least this far ahead. */
  function Tail(withPassed: nat, withoutPassed: nat, trials: nat): nat
    requires withPassed <= trials && withoutPassed <= trials
  {
    var passed := withPassed + withoutPassed;
    Sum(Overlap(passed, trials), withPassed, Min(passed, trials) + 1)
  }

  function Fisher(withPassed: nat, withoutPassed: nat, trials: nat): real
    requires withPassed <= trials && withoutPassed <= trials
  {
    ChoosePositive(2 * trials, trials);
    Tail(withPassed, withoutPassed, trials) as real / Choose(2 * trials, trials) as real
  }

  function Judge(withPassed: nat, withoutPassed: nat, trials: nat, looks: nat): (result: (real, Verdict))
    requires withPassed <= trials && withoutPassed <= trials
  {
    var p := Fisher(withPassed, withoutPassed, trials);
    if p <= ALPHA then (p, Holds)
    else if withoutPassed == trials then (p, NotReproduced)
    else (p, if looks < LOOKS then Undecided else DoesNotHold)
  }

  predicate HoldsAt(w: int, o: int, n: nat) {
    0 <= w <= n && 0 <= o <= n && Fisher(w, o, n) <= ALPHA
  }

  lemma HoldsExactly(w: nat, o: nat, n: nat)
    requires w <= n && o <= n
    ensures HoldsAt(w, o, n) <==> 40 * Tail(w, o, n) <= Choose(2 * n, n)
  {
    ChoosePositive(2 * n, n);
    var t, c := Tail(w, o, n), Choose(2 * n, n);
    assert t as real / c as real <= ALPHA <==> 40.0 * t as real <= c as real by {
      RatioAtMost(t as real, c as real);
    }
    assert (40 * t) as real == 40.0 * t as real;
  }

  lemma ScaleOrder(x: real, y: real, c: real)
    requires c > 0.0
    ensures x <= y <==> x * c <= y * c
  {
    assert (y - x) * c == y * c - x * c;
  }

  lemma RatioAtMost(t: real, c: real)
    requires c > 0.0
    ensures t / c <= ALPHA <==> 40.0 * t <= c
  {
    ScaleOrder(t / c, ALPHA, c);
    assert (t / c) * c == t;
  }

  lemma RatioOrder(s: real, t: real, c: real)
    requires c > 0.0
    ensures s <= t <==> s / c <= t / c
    ensures 0.0 / c == 0.0 && c / c == 1.0
  {
    ScaleOrder(s / c, t / c, c);
    assert (s / c) * c == s && (t / c) * c == t;
  }

  // ---- what one p means ---------------------------------------------------------

  /** All splits of `passed` passes together are all the ways to choose the halves. */
  lemma OverlapTotal(passed: nat, trials: nat)
    requires passed <= 2 * trials
    ensures Sum(Overlap(passed, trials), 0, trials + 1) == Choose(2 * trials, trials)
    ensures passed <= trials ==> Sum(Overlap(passed, trials), 0, passed + 1) == Choose(2 * trials, trials)
  {
    var f, g := Overlap(passed, trials), Split(passed, 2 * trials - passed, trials);
    Vandermonde(passed, 2 * trials - passed, trials);
    SumEqual(f, g, 0, trials + 1);
    forall k: int | k > passed
      ensures f(k) == 0
    {
      ChooseOutside(passed, k);
    }
    if passed <= trials {
      SumWiden(f, 0, passed + 1, 0, trials + 1);
    }
  }

  /** p is a probability. */
  lemma FisherIsProbability(w: nat, o: nat, n: nat)
    requires w <= n && o <= n
    ensures 0.0 <= Fisher(w, o, n) <= 1.0
  {
    var passed := w + o;
    var top := Min(passed, n) + 1;
    OverlapTotal(passed, n);
    SumSplit(Overlap(passed, n), 0, w, top);
    ChoosePositive(2 * n, n);
    RatioOrder(0.0, Tail(w, o, n) as real, Choose(2 * n, n) as real);
    RatioOrder(Tail(w, o, n) as real, Choose(2 * n, n) as real, Choose(2 * n, n) as real);
  }

  /** At a fixed number of passes, a `with` arm further ahead has a p that is never larger, and
      strictly smaller at every split that can happen. */
  lemma FisherAntitone(w: nat, o: nat, n: nat)
    requires w < n && 0 < o <= n
    ensures Fisher(w + 1, o - 1, n) < Fisher(w, o, n)
  {
    var f := Overlap(w + o, n);
    assert f(w) > 0 by {
      ChoosePositive(w + o, w);
      ChoosePositive(2 * n - (w + o), n - w);
    }
    SumDropFirst(f, w, Min(w + o, n) + 1);
    assert Tail(w + 1, o - 1, n) < Tail(w, o, n);
    ChoosePositive(2 * n, n);
    RatioOrder(Tail(w, o, n) as real, Tail(w + 1, o - 1, n) as real, Choose(2 * n, n) as real);
  }

  /** When the arm without the sentence never failed, p is exactly 1 ... */
  lemma FisherOneWhenNeverFailed(w: nat, n: nat)
    requires w <= n
    ensures Fisher(w, n, n) == 1.0
  {
    var f := Overlap(w + n, n);
    OverlapTotal(w + n, n);
    SumSplit(f, 0, w, n + 1);
    forall k | 0 <= k < w
      ensures f(k) == 0
    {
      ChooseOutside(2 * n - (w + n), n - k);
    }
    SumZero(f, 0, w);
    ChoosePositive(2 * n, n);
    RatioOrder(Tail(w, n, n) as real, Choose(2 * n, n) as real, Choose(2 * n, n) as real);
  }

  /** ... so `not-reproduced` is the verdict exactly then, at every look: `holds` never hides it. */
  lemma NotReproducedExactly(w: nat, o: nat, n: nat, looks: nat)
    requires w <= n && o <= n
    ensures Judge(w, o, n, looks).1 == NotReproduced <==> o == n
  {
    if o == n {
      FisherOneWhenNeverFailed(w, n);
    }
  }

  /** Swapping the arms maps each split to its mirror image. */
  lemma OverlapMirror(passed: nat, trials: nat, k: int)
    requires passed <= 2 * trials
    ensures Overlap(passed, trials)(k) == Overlap(passed, trials)(passed - k)
  {
    ChooseSymmetric(passed, k);
    ChooseSymmetric(2 * trials - passed, trials - k);
    assert 2 * trials - passed - (trials - k) == trials - (passed - k);
  }

  /** `holds` means the arm with the sentence is strictly ahead. */
  lemma HoldsMeansAhead(w: nat, o: nat, n: nat, looks: nat)
    requires w <= n && o <= n
    requires Judge(w, o, n, looks).1 == Holds
    ensures w > o
  {
    if w <= o {
      TailOfTheLaggard(w, o, n);
      HoldsExactly(w, o, n);
      ChoosePositive(2 * n, n);
    }
  }

  lemma OverlapOutside(passed: nat, trials: nat, k: int)
    requires passed <= 2 * trials
    requires k > trials || k > passed
    ensures Overlap(passed, trials)(k) == 0
  {
    if k > trials {
      ChooseOutside(2 * trials - passed, trials - k);
    } else {
      ChooseOutside(passed, k);
    }
  }

  lemma TailOfTheLaggard(w: nat, o: nat, n: nat)
    requires w <= o <= n
    ensures Choose(2 * n, n) <= 2 * Tail(w, o, n)
  {
    var passed := w + o;
    var f := Overlap(passed, n);
    var top := Min(passed, n) + 1;
    assert Tail(w, o, n) == Sum(f, w, top);
    assert Sum(f, 0, n + 1) <= 2 * Sum(f, w, top) by {
      var mirrored := Mirrored(f, passed);
      forall k: int
        ensures mirrored(k) == f(k)
      {
        OverlapMirror(passed, n, k);
      }
      forall k: int | k >= top
        ensures f(k) == 0
      {
        OverlapOutside(passed, n, k);
      }
      SumUpperHalfUpTo(f, w, o, n, top);
    }
    OverlapTotal(passed, n);
  }

  // ---- what is counted ------------------------------------------------------------

  /** The trials dealt to the two arms, the ones that passed first: at least w of those are in `with`. */
  function AtLeast(w: nat, passed: nat, all: nat): seq<bool> -> bool {
    (deal: seq<bool>) => |deal| == all && passed <= all && Passes(deal[..passed]) >= w
  }

  /** The ways to deal the rest when `with` has k of the passes. */
  function DealtBehind(w: nat, passed: nat, trials: nat): int -> nat
    requires passed <= 2 * trials
  {
    k => if k >= w then Choose(2 * trials - passed, trials - k) else 0
  }

  lemma DealtLeadsTo(w: nat, passed: nat, trials: nat, part: seq<bool>)
    requires passed <= 2 * trials && |part| == passed
    ensures LeadsAt(2 * trials - passed, [], AtLeast(w, passed, 2 * trials), trials, DealtBehind(w, passed, trials), part)
  {
    var good, rest := AtLeast(w, passed, 2 * trials), 2 * trials - passed;
    forall others: seq<bool> | |others| == rest ensures DecidedAt(part, good, Passes(part) >= w, others) {
      assert (part + others)[..passed] == part;
    }
    WaysOfDecided(rest, part, good, trials - Passes(part), Passes(part) >= w);
    assert [] + part == part;
  }

  /** The tail counts the ways to deal all the trials, half of them to `with`, that leave `with` at least
      as far ahead: p is their share, as if nothing but the deal made the difference. */
  lemma TailCountsDeals(w: nat, o: nat, n: nat)
    requires w <= n && o <= n
    ensures Tail(w, o, n) == Ways(2 * n, [], AtLeast(w, w + o, 2 * n), n)
    ensures Choose(2 * n, n) == Ways(2 * n, [], AtLeast(0, w + o, 2 * n), n)
  {
    DealsAreTail(w, w + o, n);
    DealsAreTail(0, w + o, n);
    var f := Overlap(w + o, n);
    OverlapTotal(w + o, n);
    SumTopped(f, 0, w + o, n);
  }

  lemma DealsAreTail(w: nat, passed: nat, n: nat)
    requires w <= passed <= 2 * n
    ensures Ways(2 * n, [], AtLeast(w, passed, 2 * n), n) == Sum(Overlap(passed, n), w, Min(passed, n) + 1)
  {
    var good, value := AtLeast(w, passed, 2 * n), DealtBehind(w, passed, n);
    forall part: seq<bool> | |part| == passed ensures LeadsAt(2 * n - passed, [], good, n, value, part) {
      DealtLeadsTo(w, passed, n, part);
    }
    WaysByPasses(passed, 2 * n - passed, [], good, n, value);
    var weighted, f := Chosen(passed, value), Overlap(passed, n);
    SumSplit(weighted, 0, w, passed + 1);
    SumZero(weighted, 0, w);
    SumEqual(weighted, f, w, passed + 1);
    SumTopped(f, w, passed, n);
  }

  /** No split gives an arm more passes than it has trials. */
  lemma SumTopped(f: int -> nat, w: nat, passed: nat, n: nat)
    requires passed <= 2 * n && f == Overlap(passed, n) && w <= passed
    ensures Sum(f, w, passed + 1) == Sum(f, w, Min(passed, n) + 1)
  {
    if passed > n {
      forall k: int | k > n ensures f(k) == 0 {
        OverlapOutside(passed, n, k);
      }
      if w <= n {
        SumSplit(f, w, n + 1, passed + 1);
        SumZero(f, n + 1, passed + 1);
      } else {
        SumZero(f, w, passed + 1);
      }
    }
  }
}
