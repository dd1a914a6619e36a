/** Trials drawn one after another, counted by how many of them pass (evals/harness.py). */
module Draws {
  import opened FiniteSums
  import opened Binomials

  function Passes(trials: seq<bool>): (n: nat)
    ensures n <= |trials|
  {
    if trials == [] then 0 else Passes(trials[..|trials| - 1]) + if trials[|trials| - 1] then 1 else 0
  }

  lemma {:induction false} PassesJoin(a: seq<bool>, b: seq<bool>)
    ensures Passes(a + b) == Passes(a) + Passes(b)
  {
    if b == [] {
      assert a + b == a;
    } else {
      PassesJoin(a, b[..|b| - 1]);
      assert (a + b)[..|a + b| - 1] == a + b[..|b| - 1];
    }
  }

  /** How many ways m more trials can go with t of them passing and the whole ending well. */
  function Ways(m: nat, drawn: seq<bool>, good: seq<bool> -> bool, t: int): nat {
    if m == 0 then if t == 0 && good(drawn) then 1 else 0
    else Ways(m - 1, drawn + [true], good, t - 1) + Ways(m - 1, drawn + [false], good, t)
  }

  function WaysRow(m: nat, drawn: seq<bool>, good: seq<bool> -> bool): int -> nat {
    t => Ways(m, drawn, good, t)
  }

  lemma {:induction false} WaysOutside(m: nat, drawn: seq<bool>, good: seq<bool> -> bool, t: int)
    requires t < 0 || t > m
    ensures Ways(m, drawn, good, t) == 0
  {
    if m > 0 {
      WaysOutside(m - 1, drawn + [true], good, t - 1);
      WaysOutside(m - 1, drawn + [false], good, t);
    }
  }

  /** When nothing that is still drawn matters, every way to draw it counts, or none does. */
  lemma {:induction false} WaysOfDecided(m: nat, drawn: seq<bool>, good: seq<bool> -> bool, t: int, decided: bool)
    requires Decided(m, drawn, good, decided)
    ensures Ways(m, drawn, good, t) == if decided then Choose(m, t) else 0
  {
    if m == 0 {
      assert drawn + [] == drawn && DecidedAt(drawn, good, decided, []);
    } else {
      StillDecided(m, drawn, good, decided, true);
      StillDecided(m, drawn, good, decided, false);
      WaysOfDecided(m - 1, drawn + [true], good, t - 1, decided);
      WaysOfDecided(m - 1, drawn + [false], good, t, decided);
    }
  }

  predicate DecidedAt(drawn: seq<bool>, good: seq<bool> -> bool, decided: bool, rest: seq<bool>) {
    good(drawn + rest) == decided
  }

  ghost predicate Decided(m: nat, drawn: seq<bool>, good: seq<bool> -> bool, decided: bool) {
    forall rest: seq<bool> {:trigger DecidedAt(drawn, good, decided, rest)} :: |rest| == m ==> DecidedAt(drawn, good, decided, rest)
  }

  lemma StillDecided(m: nat, drawn: seq<bool>, good: seq<bool> -> bool, decided: bool, next: bool)
    requires m > 0 && Decided(m, drawn, good, decided)
    ensures Decided(m - 1, drawn + [next], good, decided)
  {
    forall rest: seq<bool> | |rest| == m - 1 ensures DecidedAt(drawn + [next], good, decided, rest) {
      assert DecidedAt(drawn, good, decided, [next] + rest);
      assert drawn + ([next] + rest) == drawn + [next] + rest;
    }
  }

  function Chosen(m: nat, value: int -> nat): int -> nat {
    k => Choose(m, k) * value(k)
  }

  /** One more trial before m others, over values that depend on the number of passes. */
  lemma ChosenStep(m: nat, value: int -> nat, next: int -> nat)
    requires m > 0 && forall k: int :: next(k) == value(k + 1)
    ensures Sum(Chosen(m, value), 0, m + 1) == Sum(Chosen(m - 1, next), 0, m) + Sum(Chosen(m - 1, value), 0, m)
  {
    var all, before, beside := Chosen(m, value), Chosen(m - 1, next), Chosen(m - 1, value);
    ChooseOutside(m - 1, -1);
    ChooseOutside(m - 1, m);
    forall k | 0 <= k < m + 1 ensures all(k) == before(k - 1) + beside(k) {
      assert (Choose(m - 1, k - 1) + Choose(m - 1, k)) * value(k) == Choose(m - 1, k - 1) * value(k) + Choose(m - 1, k) * value(k);
    }
    SumOfSteps(all, before, beside, m);
    assert beside(m) == 0;
  }

  /** What m trials lead to, with r more behind them, depends on how many of them pass. */
  ghost predicate LeadsTo(m: nat, r: nat, drawn: seq<bool>, good: seq<bool> -> bool, t: int, value: int -> nat) {
    forall part: seq<bool> {:trigger LeadsAt(r, drawn, good, t, value, part)} :: |part| == m ==> LeadsAt(r, drawn, good, t, value, part)
  }

  predicate LeadsAt(r: nat, drawn: seq<bool>, good: seq<bool> -> bool, t: int, value: int -> nat, part: seq<bool>) {
    Ways(r, drawn + part, good, t - Passes(part)) == value(Passes(part))
  }

  lemma PassesOfOne(passed: bool)
    ensures Passes([passed]) == if passed then 1 else 0
  {
    assert [passed][..0] == [];
  }

  lemma LeadsOn(m: nat, r: nat, drawn: seq<bool>, good: seq<bool> -> bool, t: int, value: int -> nat, passed: bool, next: int -> nat)
    requires m > 0 && LeadsTo(m, r, drawn, good, t, value)
    requires forall k: int {:trigger next(k)} :: next(k) == value(if passed then k + 1 else k)
    ensures LeadsTo(m - 1, r, drawn + [passed], good, if passed then t - 1 else t, next)
  {
    var left := if passed then t - 1 else t;
    forall part: seq<bool> | |part| == m - 1
      ensures LeadsAt(r, drawn + [passed], good, left, next, part)
    {
      var whole := [passed] + part;
      PassesJoin([passed], part);
      PassesOfOne(passed);
      assert drawn + whole == drawn + [passed] + part;
      assert left - Passes(part) == t - Passes(whole);
      assert LeadsAt(r, drawn, good, t, value, whole);
      var k: int := Passes(part);
      assert Passes(whole) == if passed then k + 1 else k;
      assert next(k) == value(if passed then k + 1 else k);
    }
  }

  /** So the ways of them all are those of the rest, each number of passes taken as often as it comes. */
  lemma {:induction false} WaysByPasses(m: nat, r: nat, drawn: seq<bool>, good: seq<bool> -> bool, t: int, value: int -> nat)
    requires LeadsTo(m, r, drawn, good, t, value)
    ensures Ways(m + r, drawn, good, t) == Sum(Chosen(m, value), 0, m + 1)
  {
    if m == 0 {
      assert drawn + [] == drawn && LeadsAt(r, drawn, good, t, value, []);
      assert Sum(Chosen(0, value), 0, 1) == Sum(Chosen(0, value), 0, 0) + Choose(0, 0) * value(0);
    } else {
      var next := k => value(k + 1);
      LeadsOn(m, r, drawn, good, t, value, true, next);
      LeadsOn(m, r, drawn, good, t, value, false, value);
      WaysByPasses(m - 1, r, drawn + [true], good, t - 1, next);
      WaysByPasses(m - 1, r, drawn + [false], good, t, value);
      ChosenStep(m, value, next);
    }
  }
}
