/**
 The error of the two-look rule. A run of n trials per arm is judged; when it is undecided a second
 run is added and the pooled 2n trials per arm are judged. If the sentence does nothing, the 4n trials
 pass at one common rate, so every arrangement of the same T passes is equally likely.
 */
module TwoLooks {
  import opened FiniteSums
  import opened Binomials
  import opened FisherTest

  /** What the harness records as `holds`: at the first look, or at the second, which is taken only
      when the first was undecided. */
  predicate Held(n: nat, w1: nat, o1: nat, w2: nat, o2: nat)
    requires w1 <= n && o1 <= n && w2 <= n && o2 <= n
  {
    var first := Judge(w1, o1, n, 1).1;
    || first == Holds
    || (first == Undecided && Judge(w1 + w2, o1 + o2, 2 * n, 2).1 == Holds)
  }

  /** A table summed over the square 0..n by 0..n. */
  function Square(g: (int, int) -> nat, n: nat): nat {
    Sum(RowSum(g, 0, n + 1), 0, n + 1)
  }

  /** How many arrangements of the 4n trials give these four counts. */
  function Arrangements(n: nat, w1: int, o1: int, w2: int, o2: int): nat {
    (Choose(n, w1) * Choose(n, o1)) * (Choose(n, w2) * Choose(n, o2))
  }

  predicate InRange(n: nat, w: int, o: int) {
    0 <= w <= n && 0 <= o <= n
  }

  function Cell(n: nat, t: int, w1: int, o1: int, w2: int, o2: int): nat {
    if InRange(n, w1, o1) && InRange(n, w2, o2) && w1 + o1 + w2 + o2 == t && Held(n, w1, o1, w2, o2)
    then Arrangements(n, w1, o1, w2, o2) else 0
  }

  function CellsAt(n: nat, t: int, w1: int, o1: int): (int, int) -> nat {
    (w2, o2) => Cell(n, t, w1, o1, w2, o2)
  }

  function Cells(n: nat, t: int): (int, int) -> nat {
    (w1, o1) => Square(CellsAt(n, t, w1, o1), n)
  }

  /** The arrangements of t passes among the 4n trials that end in `holds`. */
  function HeldArrangements(n: nat, t: int): nat {
    Square(Cells(n, t), n)
  }

  // ---- sums over a square ------------------------------------------------------

  lemma SquareAtMost(f: (int, int) -> nat, g: (int, int) -> nat, n: nat)
    requires forall i, j :: 0 <= i <= n && 0 <= j <= n ==> f(i, j) <= g(i, j)
    ensures Square(f, n) <= Square(g, n)
  {
    var rf, rg := RowSum(f, 0, n + 1), RowSum(g, 0, n + 1);
    forall i | 0 <= i < n + 1
      ensures rf(i) <= rg(i)
    {
      SumAtMost(j => f(i, j), j => g(i, j), 0, n + 1);
    }
    SumAtMost(rf, rg, 0, n + 1);
  }

  lemma SquareEqual(f: (int, int) -> nat, g: (int, int) -> nat, n: nat)
    requires forall i, j :: 0 <= i <= n && 0 <= j <= n ==> f(i, j) == g(i, j)
    ensures Square(f, n) == Square(g, n)
  {
    SquareAtMost(f, g, n);
    SquareAtMost(g, f, n);
  }

  lemma SumAddTo(f: int -> nat, g: int -> nat, h: int -> nat, n: nat)
    requires forall i :: 0 <= i <= n ==> h(i) == f(i) + g(i)
    ensures Sum(h, 0, n + 1) == Sum(f, 0, n + 1) + Sum(g, 0, n + 1)
  {
    SumAdd(f, g, 0, n + 1);
    SumEqual(h, i => f(i) + g(i), 0, n + 1);
  }

  lemma SumScaleTo(c: nat, f: int -> nat, h: int -> nat, n: nat)
    requires forall i :: 0 <= i <= n ==> h(i) == c * f(i)
    ensures Sum(h, 0, n + 1) == c * Sum(f, 0, n + 1)
  {
    SumScale(c, f, 0, n + 1);
    SumEqual(h, i => c * f(i), 0, n + 1);
  }

  lemma SquareAdd(f: (int, int) -> nat, g: (int, int) -> nat, h: (int, int) -> nat, n: nat)
    requires forall i, j :: 0 <= i <= n && 0 <= j <= n ==> h(i, j) == f(i, j) + g(i, j)
    ensures Square(h, n) == Square(f, n) + Square(g, n)
  {
    var rf, rg, rh := RowSum(f, 0, n + 1), RowSum(g, 0, n + 1), RowSum(h, 0, n + 1);
    forall i | 0 <= i <= n
      ensures rh(i) == rf(i) + rg(i)
    {
      SumAddTo(j => f(i, j), j => g(i, j), j => h(i, j), n);
    }
    SumAddTo(rf, rg, rh, n);
  }

  lemma SquareScale(c: nat, f: (int, int) -> nat, h: (int, int) -> nat, n: nat)
    requires forall i, j :: 0 <= i <= n && 0 <= j <= n ==> h(i, j) == c * f(i, j)
    ensures Square(h, n) == c * Square(f, n)
  {
    var rf, rh := RowSum(f, 0, n + 1), RowSum(h, 0, n + 1);
    forall i | 0 <= i <= n
      ensures rh(i) == c * rf(i)
    {
      SumScaleTo(c, j => f(i, j), j => h(i, j), n);
    }
    SumScaleTo(c, rf, rh, n);
  }

  /** Two independent runs of n pooled into one of 2n: the weights of equal totals add up. */
  function Pooled(n: nat, f: int -> nat): (int, int) -> nat {
    (i, j) => Choose(n, i) * Choose(n, j) * f(i + j)
  }

  lemma SquareByDiagonals(g: (int, int) -> nat, n: nat, closed: int -> nat)
    requires forall i, j :: j < 0 || j > n ==> g(i, j) == 0
    requires forall s :: 0 <= s < 2 * n + 1 ==> ColumnSum(Slanted(g), 0, n + 1)(s) == closed(s)
    ensures Square(g, n) == Sum(closed, 0, 2 * n + 1)
  {
    SumByDiagonals(g, n);
    SumEqual(ColumnSum(Slanted(g), 0, n + 1), closed, 0, 2 * n + 1);
  }

  /** The weighted total of f over the pooled count, for 2n trials. */
  function Weighted(n: nat, f: int -> nat): int -> nat {
    s => Choose(2 * n, s) * f(s)
  }

  lemma PooledChoose(n: nat, f: int -> nat)
    ensures Square(Pooled(n, f), n) == Sum(Weighted(n, f), 0, 2 * n + 1)
  {
    var g := Pooled(n, f);
    forall i: int, j: int | j < 0 || j > n
      ensures g(i, j) == 0
    {
      ChooseOutside(n, j);
    }
    forall s | 0 <= s < 2 * n + 1
      ensures ColumnSum(Slanted(g), 0, n + 1)(s) == Weighted(n, f)(s)
    {
      PooledDiagonal(n, f, s);
    }
    SquareByDiagonals(g, n, Weighted(n, f));
  }

  lemma DiagonalIs(g: (int, int) -> nat, n: nat, s: int, c: nat, h: int -> nat)
    requires forall i :: g(i, s - i) == c * h(i)
    ensures ColumnSum(Slanted(g), 0, n + 1)(s) == c * Sum(h, 0, n + 1)
  {
    var slanted := Slanted(g);
    assert forall i :: slanted(i, s) == g(i, s - i);
    SumScale(c, h, 0, n + 1);
    SumEqual(i => slanted(i, s), i => c * h(i), 0, n + 1);
  }

  lemma PooledDiagonal(n: nat, f: int -> nat, s: int)
    ensures ColumnSum(Slanted(Pooled(n, f)), 0, n + 1)(s) == Weighted(n, f)(s)
  {
    var g, split := Pooled(n, f), Split(n, n, s);
    forall i: int
      ensures g(i, s - i) == f(s) * split(i)
    {
      assert i + (s - i) == s;
      Commute(Choose(n, i) * Choose(n, s - i), f(s));
    }
    DiagonalIs(g, n, s, f(s), split);
    VandermondeOver(n, n, s);
    Commute(Choose(2 * n, s), f(s));
  }

  lemma Commute(a: nat, b: nat)
    ensures a * b == b * a
  {
  }

  // ---- one look ------------------------------------------------------------------

  /** The arrangements of t passes in 2n trials with w in the first arm, where that look says `holds`. */
  function HeldAtLook(n: nat, t: int): int -> nat {
    w => HeldWith(n, w, t - w)
  }

  function HeldWith(n: nat, w: int, o: int): nat {
    if HoldsAt(w, o, n) then Choose(n, w) * Choose(n, o) else 0
  }

  /** The duality of the weights, summed over a tail. */
  lemma {:induction false} TailDuality(n: nat, t: nat, w: int)
    requires t <= 2 * n && w <= n + 1
    ensures Choose(2 * n, t) * Sum(Overlap(t, n), w, n + 1) == Choose(2 * n, n) * Sum(Split(n, n, t), w, n + 1)
    decreases n + 1 - w
  {
    if w <= n {
      TailDuality(n, t, w + 1);
      SumDropFirst(Overlap(t, n), w, n + 1);
      SumDropFirst(Split(n, n, t), w, n + 1);
      HypergeometricDuality(n, t, w);
      AddScaled(Choose(2 * n, t), Overlap(t, n)(w), Sum(Overlap(t, n), w + 1, n + 1),
                Choose(2 * n, n), Split(n, n, t)(w), Sum(Split(n, n, t), w + 1, n + 1));
    }
  }

  lemma AddScaled(a: nat, x: nat, x': nat, b: nat, y: nat, y': nat)
    requires x * a == y * b
    requires a * x' == b * y'
    ensures a * (x + x') == b * (y + y')
  {
  }

  lemma CancelBound(x: nat, y: nat, c: nat, tail: nat)
    requires c > 0
    requires c * x == y * tail
    requires 40 * tail <= c
    ensures 40 * x <= y
  {
    assert y * (40 * tail) <= y * c;
    assert c * (40 * x) == y * (40 * tail);
    assert c * (y - 40 * x) >= 0;
  }

  lemma LookFrom(n: nat, t: nat, w: nat)
    requires w <= n && w <= t && t - w <= n
    requires HoldsAt(w, t - w, n)
    ensures 40 * Sum(Split(n, n, t), w, n + 1) <= Choose(2 * n, t)
  {
    HoldsExactly(w, t - w, n);
    var top := Min(t, n) + 1;
    var f := Overlap(t, n);
    assert Tail(w, t - w, n) == Sum(f, w, top);
    assert Sum(f, w, top) == Sum(f, w, n + 1) by {
      forall k: int | k > t
        ensures f(k) == 0
      {
        OverlapOutside(t, n, k);
      }
      SumWiden(f, w, top, w, n + 1);
    }
    TailDuality(n, t, w);
    ChoosePositive(2 * n, n);
    CancelBound(Sum(Split(n, n, t), w, n + 1), Choose(2 * n, t), Choose(2 * n, n), Tail(w, t - w, n));
  }

  lemma HeldAtMost(n: nat, t: int, k: int)
    ensures HeldAtLook(n, t)(k) <= Split(n, n, t)(k)
    ensures !HoldsAt(k, t - k, n) ==> HeldAtLook(n, t)(k) == 0
  {
    var held, split := HeldAtLook(n, t), Split(n, n, t);
    assert held(k) == HeldWith(n, k, t - k);
    assert split(k) == Choose(n, k) * Choose(n, t - k);
  }

  lemma {:induction false} LookBound(n: nat, t: int, w: nat)
    requires w <= n + 1
    ensures 40 * Sum(HeldAtLook(n, t), w, n + 1) <= Choose(2 * n, t)
    decreases n + 1 - w
  {
    var held, split := HeldAtLook(n, t), Split(n, n, t);
    if w <= n {
      if HoldsAt(w, t - w, n) {
        forall k: int
          ensures held(k) <= split(k)
        {
          HeldAtMost(n, t, k);
        }
        SumAtMost(held, split, w, n + 1);
        LookFrom(n, t, w);
      } else {
        HeldAtMost(n, t, w);
        SumDropFirst(held, w, n + 1);
        LookBound(n, t, w + 1);
      }
    }
  }

  // ---- both looks ----------------------------------------------------------------

  /** The first look alone: arrangements with t passes whose first run says `holds`. */
  function FirstCell(n: nat, t: int, w1: int, o1: int): (int, int) -> nat {
    (w2, o2) => FirstWeight(n, t, w1, o1, w2, o2)
  }

  function FirstWeight(n: nat, t: int, w1: int, o1: int, w2: int, o2: int): nat {
    if w1 + o1 + w2 + o2 == t && HoldsAt(w1, o1, n) then Arrangements(n, w1, o1, w2, o2) else 0
  }

  function Is(a: int, b: int): nat {
    if a == b then 1 else 0
  }

  function FirstCells(n: nat, t: int): (int, int) -> nat {
    (w1, o1) => Square(FirstCell(n, t, w1, o1), n)
  }

  /** Whatever the first run was, the second can be anything that brings the passes to t. */
  lemma SecondRunFree(n: nat, u: int)
    ensures Square(Pooled(n, s => Is(s, u)), n) == Choose(2 * n, u)
  {
    var f := s => Is(s, u);
    PooledChoose(n, f);
    var weighted := Weighted(n, f);
    SumSingle(weighted, u, 0, 2 * n + 1);
    if !(0 <= u <= 2 * n) {
      ChooseOutside(2 * n, u);
    }
  }

  lemma FirstCellIs(n: nat, t: int, w1: int, o1: int)
    ensures forall w2: int, o2: int :: FirstCell(n, t, w1, o1)(w2, o2)
                                       == HeldWith(n, w1, o1) * Pooled(n, s => Is(s, t - (w1 + o1)))(w2, o2)
  {
    forall w2: int, o2: int
      ensures FirstCell(n, t, w1, o1)(w2, o2) == HeldWith(n, w1, o1) * Pooled(n, s => Is(s, t - (w1 + o1)))(w2, o2)
    {
      FirstWeightIs(n, t, w1, o1, w2, o2);
    }
  }

  lemma FirstCellsAre(n: nat, t: int, w1: int, o1: int)
    ensures FirstCells(n, t)(w1, o1) == HeldWith(n, w1, o1) * Choose(2 * n, t - (w1 + o1))
  {
    var u := t - (w1 + o1);
    FirstCellIs(n, t, w1, o1);
    SquareScale(HeldWith(n, w1, o1), Pooled(n, s => Is(s, u)), FirstCell(n, t, w1, o1), n);
    SecondRunFree(n, u);
  }

  lemma FirstWeightIs(n: nat, t: int, w1: int, o1: int, w2: int, o2: int)
    ensures FirstWeight(n, t, w1, o1, w2, o2)
         == HeldWith(n, w1, o1) * (Choose(n, w2) * Choose(n, o2) * Is(w2 + o2, t - (w1 + o1)))
  {
    var a, b := Choose(n, w1) * Choose(n, o1), Choose(n, w2) * Choose(n, o2);
    assert a * (b * 1) == a * b && a * (b * 0) == 0;
  }

  lemma FirstDiagonal(n: nat, t: int, s: int)
    ensures ColumnSum(Slanted(FirstCells(n, t)), 0, n + 1)(s)
         == Choose(2 * n, t - s) * Sum(HeldAtLook(n, s), 0, n + 1)
  {
    var g, held := FirstCells(n, t), HeldAtLook(n, s);
    forall i: int
      ensures g(i, s - i) == Choose(2 * n, t - s) * held(i)
    {
      FirstCellsAre(n, t, i, s - i);
      assert i + (s - i) == s;
      Commute(HeldWith(n, i, s - i), Choose(2 * n, t - s));
    }
    DiagonalIs(g, n, s, Choose(2 * n, t - s), held);
  }

  /** The weight of a first run with s passes, times the ways the second can bring them to t. */
  function FirstBySum(n: nat, t: int): int -> nat {
    s => Choose(2 * n, t - s) * Sum(HeldAtLook(n, s), 0, n + 1)
  }

  lemma FirstTermBound(n: nat, t: int, s: nat)
    requires s <= 2 * n
    ensures 40 * FirstBySum(n, t)(s) <= Split(2 * n, 2 * n, t)(s)
  {
    LookBound(n, s, 0);
    ScaledBound(Choose(2 * n, t - s), Sum(HeldAtLook(n, s), 0, n + 1), Choose(2 * n, s));
  }

  lemma FirstBySumBound(n: nat, t: int)
    ensures 40 * Sum(FirstBySum(n, t), 0, 2 * n + 1) <= Choose(4 * n, t)
  {
    var closed, split := FirstBySum(n, t), Split(2 * n, 2 * n, t);
    forall s | 0 <= s < 2 * n + 1
      ensures 40 * closed(s) <= split(s)
    {
      FirstTermBound(n, t, s);
    }
    SumBound(closed, split, 2 * n + 1);
    VandermondeOver(2 * n, 2 * n, t);
  }

  lemma SumBound(f: int -> nat, g: int -> nat, hi: int)
    requires forall s :: 0 <= s < hi ==> 40 * f(s) <= g(s)
    ensures 40 * Sum(f, 0, hi) <= Sum(g, 0, hi)
  {
    var scaled := s => 40 * f(s);
    SumScale(40, f, 0, hi);
    SumEqual(scaled, i => 40 * f(i), 0, hi);
    SumAtMost(scaled, g, 0, hi);
  }

  lemma FirstColumnsAre(n: nat, t: int)
    ensures forall s :: 0 <= s < 2 * n + 1 ==> ColumnSum(Slanted(FirstCells(n, t)), 0, n + 1)(s) == FirstBySum(n, t)(s)
  {
    forall s | 0 <= s < 2 * n + 1
      ensures ColumnSum(Slanted(FirstCells(n, t)), 0, n + 1)(s) == FirstBySum(n, t)(s)
    {
      FirstDiagonal(n, t, s);
    }
  }

  lemma FirstCellsEnd(n: nat, t: int)
    ensures forall i: int, j: int :: j < 0 || j > n ==> FirstCells(n, t)(i, j) == 0
  {
    forall i: int, j: int | j < 0 || j > n
      ensures FirstCells(n, t)(i, j) == 0
    {
      FirstCellsAre(n, t, i, j);
    }
  }

  /** The first look spends at most ALPHA. */
  lemma FirstLookBound(n: nat, t: int)
    ensures 40 * Square(FirstCells(n, t), n) <= Choose(4 * n, t)
  {
    FirstCellsEnd(n, t);
    FirstColumnsAre(n, t);
    SquareByDiagonals(FirstCells(n, t), n, FirstBySum(n, t));
    FirstBySumBound(n, t);
  }

  lemma ScaledBound(a: nat, x: nat, y: nat)
    requires 40 * x <= y
    ensures 40 * (a * x) <= y * a
  {
    assert a * (40 * x) <= a * y;
  }

  /** The pooled look alone: arrangements with t passes whose 2n trials per arm say `holds`. */
  function PooledWeight(n: nat, t: int, w1: int, o1: int, w2: int, o2: int): nat {
    if w1 + o1 + w2 + o2 == t && HoldsAt(w1 + w2, o1 + o2, 2 * n) then Arrangements(n, w1, o1, w2, o2) else 0
  }

  /** For given counts of the `with` arm in both runs, the square over the other arm's counts ... */
  function WithoutSquare(n: nat, t: int, w1: int, w2: int): (int, int) -> nat {
    (o1, o2) => PooledWeight(n, t, w1, o1, w2, o2)
  }

  /** ... and the square of those over the `with` arm's counts. */
  function PooledCells(n: nat, t: int): (int, int) -> nat {
    (w1, w2) => Square(WithoutSquare(n, t, w1, w2), n)
  }

  /** The ways the pooled other arm has t - w passes, counted only where w ahead of them holds. */
  function OtherArm(n: nat, t: int): int -> nat {
    w => if HoldsAt(w, t - w, 2 * n) then Choose(2 * n, t - w) else 0
  }

  function Hit(n: nat, t: int, w: int): int -> nat {
    o => if w + o == t && HoldsAt(w, o, 2 * n) then 1 else 0
  }

  lemma WithoutSquareScaled(n: nat, t: int, w1: int, w2: int, c: nat)
    requires c == Choose(n, w1) * Choose(n, w2)
    ensures PooledCells(n, t)(w1, w2) == c * Square(Pooled(n, Hit(n, t, w1 + w2)), n)
  {
    var pooled, cell := Pooled(n, Hit(n, t, w1 + w2)), WithoutSquare(n, t, w1, w2);
    forall o1: int, o2: int
      ensures cell(o1, o2) == c * pooled(o1, o2)
    {
      PooledWeightIs(n, t, w1, o1, w2, o2);
    }
    SquareScale(c, pooled, cell, n);
  }

  lemma WithoutSquareIs(n: nat, t: int, w1: int, w2: int)
    ensures PooledCells(n, t)(w1, w2) == Choose(n, w1) * Choose(n, w2) * OtherArm(n, t)(w1 + w2)
  {
    WithoutSquareScaled(n, t, w1, w2, Choose(n, w1) * Choose(n, w2));
    HitTotal(n, t, w1 + w2);
  }

  lemma HitIs(n: nat, t: int, w: int) returns (value: nat)
    ensures OnlyAt(Hit(n, t, w), t - w, value)
    ensures OtherArm(n, t)(w) == Choose(2 * n, t - w) * value
  {
    value := Hit(n, t, w)(t - w);
  }

  lemma HitTotal(n: nat, t: int, w: int)
    ensures Square(Pooled(n, Hit(n, t, w)), n) == OtherArm(n, t)(w)
  {
    var value := HitIs(n, t, w);
    PooledHit(n, Hit(n, t, w), t - w, value);
  }

  /** All the weight at one place. */
  ghost predicate OnlyAt(hit: int -> nat, at: int, value: nat) {
    hit(at) == value && forall o: int :: o != at ==> hit(o) == 0
  }

  lemma PooledHit(n: nat, hit: int -> nat, at: int, value: nat)
    requires OnlyAt(hit, at, value)
    ensures Square(Pooled(n, hit), n) == Choose(2 * n, at) * value
  {
    PooledChoose(n, hit);
    WeightedHit(n, hit, at, value);
  }

  lemma WeightedHit(n: nat, hit: int -> nat, at: int, value: nat)
    requires OnlyAt(hit, at, value)
    ensures Sum(Weighted(n, hit), 0, 2 * n + 1) == Choose(2 * n, at) * value
  {
    SumSingle(Weighted(n, hit), at, 0, 2 * n + 1);
    if !(0 <= at < 2 * n + 1) {
      ChooseOutside(2 * n, at);
    }
  }

  lemma PooledWeightIs(n: nat, t: int, w1: int, o1: int, w2: int, o2: int)
    ensures PooledWeight(n, t, w1, o1, w2, o2)
         == Choose(n, w1) * Choose(n, w2) * (Choose(n, o1) * Choose(n, o2) * Hit(n, t, w1 + w2)(o1 + o2))
  {
    Regroup(Choose(n, w1), Choose(n, o1), Choose(n, w2), Choose(n, o2));
    var a, b := Choose(n, w1) * Choose(n, w2), Choose(n, o1) * Choose(n, o2);
    var hit := Hit(n, t, w1 + w2);
    assert a * (b * 1) == a * b && a * (b * 0) == 0;
    assert hit(o1 + o2) == if w1 + w2 + (o1 + o2) == t && HoldsAt(w1 + w2, o1 + o2, 2 * n) then 1 else 0;
  }

  lemma Regroup(a: nat, b: nat, c: nat, d: nat)
    ensures (a * b) * (c * d) == (a * c) * (b * d)
  {
  }

  /** The pooled look spends at most ALPHA as well. */
  lemma PooledLookBound(n: nat, t: int)
    ensures 40 * Square(PooledCells(n, t), n) <= Choose(4 * n, t)
  {
    var other := OtherArm(n, t);
    var cells, pooled := PooledCells(n, t), Pooled(n, other);
    forall w1: int, w2: int
      ensures cells(w1, w2) == pooled(w1, w2)
    {
      WithoutSquareIs(n, t, w1, w2);
    }
    SquareEqual(cells, pooled, n);
    PooledChoose(n, other);
    var weighted, held := Weighted(n, other), HeldAtLook(2 * n, t);
    forall w: int
      ensures weighted(w) == held(w)
    {
      assert other(w) == if HoldsAt(w, t - w, 2 * n) then Choose(2 * n, t - w) else 0;
      assert held(w) == HeldWith(2 * n, w, t - w);
    }
    SumEqual(weighted, held, 0, 2 * n + 1);
    LookBound(2 * n, t, 0);
  }

  /** The pooled weights run by run: the order in which the harness meets them. */
  function PooledCell(n: nat, t: int, w1: int, o1: int): (int, int) -> nat {
    (w2, o2) => PooledWeight(n, t, w1, o1, w2, o2)
  }

  function PooledByRun(n: nat, t: int): (int, int) -> nat {
    (w1, o1) => Square(PooledCell(n, t, w1, o1), n)
  }

  /** For a fixed count of the first run's `with` arm: the other arm's first count against the second
      run's `with` count, summed over what is left. */
  function LastSum(n: nat, t: int, w1: int): (int, int) -> nat {
    (o1, w2) => Sum(o2 => PooledWeight(n, t, w1, o1, w2, o2), 0, n + 1)
  }

  lemma LastSumIs(n: nat, t: int, w1: int, o1: int, w2: int)
    ensures RowSum(PooledCell(n, t, w1, o1), 0, n + 1)(w2) == LastSum(n, t, w1)(o1, w2)
    ensures RowSum(WithoutSquare(n, t, w1, w2), 0, n + 1)(o1) == LastSum(n, t, w1)(o1, w2)
  {
    var a, b := PooledCell(n, t, w1, o1), WithoutSquare(n, t, w1, w2);
    SumEqual(o2 => a(w2, o2), o2 => PooledWeight(n, t, w1, o1, w2, o2), 0, n + 1);
    SumEqual(o2 => b(o1, o2), o2 => PooledWeight(n, t, w1, o1, w2, o2), 0, n + 1);
  }

  lemma RunRows(n: nat, t: int, w1: int)
    ensures RowSum(PooledByRun(n, t), 0, n + 1)(w1) == RowSum(PooledCells(n, t), 0, n + 1)(w1)
  {
    var last := LastSum(n, t, w1);
    var byRun, byArm := PooledByRun(n, t), PooledCells(n, t);
    forall o1: int
      ensures byRun(w1, o1) == RowSum(last, 0, n + 1)(o1)
    {
      var rows := RowSum(PooledCell(n, t, w1, o1), 0, n + 1);
      forall w2: int
        ensures rows(w2) == last(o1, w2)
      {
        LastSumIs(n, t, w1, o1, w2);
      }
      SumEqual(rows, w2 => last(o1, w2), 0, n + 1);
    }
    forall w2: int
      ensures byArm(w1, w2) == ColumnSum(last, 0, n + 1)(w2)
    {
      var rows := RowSum(WithoutSquare(n, t, w1, w2), 0, n + 1);
      forall o1: int
        ensures rows(o1) == last(o1, w2)
      {
        LastSumIs(n, t, w1, o1, w2);
      }
      SumEqual(rows, o1 => last(o1, w2), 0, n + 1);
    }
    SumEqual(o1 => byRun(w1, o1), RowSum(last, 0, n + 1), 0, n + 1);
    SumEqual(w2 => byArm(w1, w2), ColumnSum(last, 0, n + 1), 0, n + 1);
    SumSwap(last, 0, n + 1, 0, n + 1);
  }

  lemma PooledByRunIs(n: nat, t: int)
    ensures Square(PooledByRun(n, t), n) == Square(PooledCells(n, t), n)
  {
    var a, b := RowSum(PooledByRun(n, t), 0, n + 1), RowSum(PooledCells(n, t), 0, n + 1);
    forall w1: int
      ensures a(w1) == b(w1)
    {
      RunRows(n, t, w1);
    }
    SumEqual(a, b, 0, n + 1);
  }

  lemma CellBound(n: nat, t: int, w1: int, o1: int, w2: int, o2: int)
    ensures Cell(n, t, w1, o1, w2, o2) <= FirstWeight(n, t, w1, o1, w2, o2) + PooledWeight(n, t, w1, o1, w2, o2)
  {
  }

  lemma CellsBound(n: nat, t: int, w1: int, o1: int)
    ensures Cells(n, t)(w1, o1) <= FirstCells(n, t)(w1, o1) + PooledByRun(n, t)(w1, o1)
  {
    var cell, first, pooled := CellsAt(n, t, w1, o1), FirstCell(n, t, w1, o1), PooledCell(n, t, w1, o1);
    var both := (w2, o2) => first(w2, o2) + pooled(w2, o2);
    forall w2: int, o2: int
      ensures cell(w2, o2) <= both(w2, o2)
    {
      CellBound(n, t, w1, o1, w2, o2);
    }
    SquareAtMost(cell, both, n);
    SquareAdd(first, pooled, both, n);
  }

  /** Two looks at ALPHA keep the error under twice ALPHA: of all arrangements of t passes among the
      4n trials, at most that share ends in `holds`. */
  lemma TwoLooksKeepTheError(n: nat, t: int)
    ensures HeldArrangements(n, t) as real <= 2.0 * ALPHA * Choose(4 * n, t) as real
  {
    var cells, first, pooled := Cells(n, t), FirstCells(n, t), PooledByRun(n, t);
    var both := (w1, o1) => first(w1, o1) + pooled(w1, o1);
    forall w1: int, o1: int
      ensures cells(w1, o1) <= both(w1, o1)
    {
      CellsBound(n, t, w1, o1);
    }
    SquareAtMost(cells, both, n);
    SquareAdd(first, pooled, both, n);
    FirstLookBound(n, t);
    PooledLookBound(n, t);
    PooledByRunIs(n, t);
    assert 40 * HeldArrangements(n, t) <= 2 * Choose(4 * n, t);
  }
}
