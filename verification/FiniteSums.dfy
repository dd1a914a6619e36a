/** Finite sums of natural numbers over an integer range, and the few laws the exact test needs. */
module FiniteSums {

  /** The sum of f(i) for lo <= i < hi. */
  function Sum(f: int -> nat, lo: int, hi: int): nat
    decreases hi - lo
  {
    if lo >= hi then 0 else Sum(f, lo, hi - 1) + f(hi - 1)
  }

  lemma {:induction false} SumEqual(f: int -> nat, g: int -> nat, lo: int, hi: int)
    requires forall i :: lo <= i < hi ==> f(i) == g(i)
    ensures Sum(f, lo, hi) == Sum(g, lo, hi)
    decreases hi - lo
  {
    if lo < hi {
      SumEqual(f, g, lo, hi - 1);
    }
  }

  lemma {:induction false} SumAtMost(f: int -> nat, g: int -> nat, lo: int, hi: int)
    requires forall i :: lo <= i < hi ==> f(i) <= g(i)
    ensures Sum(f, lo, hi) <= Sum(g, lo, hi)
    decreases hi - lo
  {
    if lo < hi {
      SumAtMost(f, g, lo, hi - 1);
    }
  }

  lemma {:induction false} SumZero(f: int -> nat, lo: int, hi: int)
    requires forall i :: lo <= i < hi ==> f(i) == 0
    ensures Sum(f, lo, hi) == 0
    decreases hi - lo
  {
    if lo < hi {
      SumZero(f, lo, hi - 1);
    }
  }

  lemma {:induction false} SumAdd(f: int -> nat, g: int -> nat, lo: int, hi: int)
    ensures Sum(i => f(i) + g(i), lo, hi) == Sum(f, lo, hi) + Sum(g, lo, hi)
    decreases hi - lo
  {
    if lo < hi {
      SumAdd(f, g, lo, hi - 1);
    }
  }

  lemma {:induction false} SumScale(c: nat, f: int -> nat, lo: int, hi: int)
    ensures Sum(i => c * f(i), lo, hi) == c * Sum(f, lo, hi)
    decreases hi - lo
  {
    if lo < hi {
      SumScale(c, f, lo, hi - 1);
      assert c * (Sum(f, lo, hi - 1) + f(hi - 1)) == c * Sum(f, lo, hi - 1) + c * f(hi - 1);
    }
  }

  lemma {:induction false} SumSplit(f: int -> nat, lo: int, mid: int, hi: int)
    requires lo <= mid <= hi
    ensures Sum(f, lo, hi) == Sum(f, lo, mid) + Sum(f, mid, hi)
    decreases hi - mid
  {
    if mid < hi {
      SumSplit(f, lo, mid, hi - 1);
    }
  }

  /** Terms outside [lo, hi) that vanish may be added or left out. */
  lemma SumWiden(f: int -> nat, lo: int, hi: int, lo': int, hi': int)
    requires lo' <= lo <= hi <= hi'
    requires forall i :: lo' <= i < hi' && !(lo <= i < hi) ==> f(i) == 0
    ensures Sum(f, lo', hi') == Sum(f, lo, hi)
  {
    SumSplit(f, lo', lo, hi');
    SumSplit(f, lo, hi, hi');
    SumZero(f, lo', lo);
    SumZero(f, hi, hi');
  }

  lemma {:induction false} SumShift(f: int -> nat, d: int, lo: int, hi: int)
    ensures Sum(i => f(i - d), lo + d, hi + d) == Sum(f, lo, hi)
    decreases hi - lo
  {
    if lo < hi {
      SumShift(f, d, lo, hi - 1);
    }
  }

  function Mirrored(f: int -> nat, c: int): int -> nat {
    k => f(c - k)
  }

  /** Reading a range backwards does not change its sum. */
  lemma {:induction false} SumReverse(f: int -> nat, c: int, lo: int, hi: int)
    ensures Sum(Mirrored(f, c), lo, hi) == Sum(f, c - hi + 1, c - lo + 1)
    decreases hi - lo
  {
    if lo < hi {
      SumReverse(f, c, lo, hi - 1);
      SumSplit(f, c - hi + 1, c - hi + 2, c - lo + 1);
      assert Sum(f, c - hi + 1, c - hi + 2) == Sum(f, c - hi + 1, c - hi + 1) + f(c - hi + 1);
    }
  }

  lemma SumDropFirst(f: int -> nat, lo: int, hi: int)
    requires lo < hi
    ensures Sum(f, lo, hi) == f(lo) + Sum(f, lo + 1, hi)
  {
    SumSplit(f, lo, lo + 1, hi);
    assert Sum(f, lo, lo) == 0;
  }

  lemma SumMirror(f: int -> nat, w: int, o: int)
    requires forall k :: w <= k < w + o + 1 ==> Mirrored(f, w + o)(k) == f(k)
    ensures Sum(f, w, w + o + 1) == Sum(f, 0, o + 1)
  {
    var c, hi := w + o, w + o + 1;
    SumReverse(f, c, w, hi);
    SumEqual(Mirrored(f, c), f, w, hi);
    assert c - hi + 1 == 0 && c - w + 1 == o + 1;
  }

  /** The upper part of a row that reads the same from both ends is at least half of it, when it
      starts no later than the middle. */
  lemma SumUpperHalf(f: int -> nat, w: nat, o: nat)
    requires w <= o
    requires Sum(f, w, w + o + 1) == Sum(f, 0, o + 1)
    ensures Sum(f, 0, w + o + 1) <= 2 * Sum(f, w, w + o + 1)
  {
    SumSplit(f, 0, o + 1, w + o + 1);
    SumSplit(f, w, o + 1, w + o + 1);
  }

  /** The same, when every term past `top` vanishes. */
  lemma SumUpperHalfUpTo(f: int -> nat, w: nat, o: nat, n: nat, top: nat)
    requires w <= o < top <= w + o + 1 && top <= n + 1
    requires forall k :: w <= k < w + o + 1 ==> Mirrored(f, w + o)(k) == f(k)
    requires forall k :: k >= top ==> f(k) == 0
    ensures Sum(f, 0, n + 1) <= 2 * Sum(f, w, top)
  {
    SumMirror(f, w, o);
    SumUpperHalf(f, w, o);
    SumWiden(f, 0, top, 0, w + o + 1);
    SumWiden(f, w, top, w, w + o + 1);
    SumWiden(f, 0, top, 0, n + 1);
  }

  /** A sum in which only the term at k can differ from zero. */
  lemma SumSingle(f: int -> nat, k: int, lo: int, hi: int)
    requires forall i :: lo <= i < hi && i != k ==> f(i) == 0
    ensures Sum(f, lo, hi) == if lo <= k < hi then f(k) else 0
  {
    if lo <= k < hi {
      SumWiden(f, k, k + 1, lo, hi);
      assert Sum(f, k, k) == 0;
    } else {
      SumZero(f, lo, hi);
    }
  }

  /** A sum whose terms each come from one table's entry before it and another's entry beside it. */
  lemma SumOfSteps(h: int -> nat, before: int -> nat, beside: int -> nat, m: nat)
    requires before(-1) == 0
    requires forall k :: 0 <= k < m + 1 ==> h(k) == before(k - 1) + beside(k)
    ensures Sum(h, 0, m + 1) == Sum(before, 0, m) + Sum(beside, 0, m + 1)
  {
    var moved := k => before(k - 1);
    SumShift(before, 1, 0, m);
    SumWiden(moved, 1, m + 1, 0, m + 1);
    SumAdd(moved, beside, 0, m + 1);
    SumEqual(h, k => moved(k) + beside(k), 0, m + 1);
  }

  /** The i-th row of a table summed, and its j-th column summed. */
  function RowSum(g: (int, int) -> nat, lo: int, hi: int): int -> nat {
    i => Sum(j => g(i, j), lo, hi)
  }

  function ColumnSum(g: (int, int) -> nat, lo: int, hi: int): int -> nat {
    j => Sum(i => g(i, j), lo, hi)
  }

  lemma {:induction false} SumSwap(g: (int, int) -> nat, lo: int, hi: int, lo': int, hi': int)
    ensures Sum(RowSum(g, lo', hi'), lo, hi) == Sum(ColumnSum(g, lo, hi), lo', hi')
    decreases hi - lo
  {
    if lo >= hi {
      SumZero(ColumnSum(g, lo, hi), lo', hi');
    } else {
      var last := j => g(hi - 1, j);
      SumSwap(g, lo, hi - 1, lo', hi');
      SumAdd(ColumnSum(g, lo, hi - 1), last, lo', hi');
      SumEqual(ColumnSum(g, lo, hi), j => ColumnSum(g, lo, hi - 1)(j) + last(j), lo', hi');
    }
  }

  /** The table with row i moved i places to the right, so that columns are the old diagonals. */
  function Slanted(g: (int, int) -> nat): (int, int) -> nat {
    (i, s) => g(i, s - i)
  }

  lemma SumRowBySlant(g: (int, int) -> nat, n: nat, i: int)
    requires 0 <= i <= n
    requires forall j :: j < 0 || j > n ==> g(i, j) == 0
    ensures RowSum(g, 0, n + 1)(i) == RowSum(Slanted(g), 0, 2 * n + 1)(i)
  {
    var row := j => g(i, j);
    var shifted := s => g(i, s - i);
    SumShift(row, i, 0, n + 1);
    SumEqual(s => row(s - i), shifted, i, n + 1 + i);
    SumWiden(shifted, i, n + 1 + i, 0, 2 * n + 1);
    var slanted := Slanted(g);
    SumEqual(shifted, s => slanted(i, s), 0, 2 * n + 1);
  }

  /** Summing a square of side n + 1 by rows, or by its diagonals of constant i + j. */
  lemma SumByDiagonals(g: (int, int) -> nat, n: nat)
    requires forall i, j :: j < 0 || j > n ==> g(i, j) == 0
    ensures Sum(RowSum(g, 0, n + 1), 0, n + 1) == Sum(ColumnSum(Slanted(g), 0, n + 1), 0, 2 * n + 1)
  {
    var rows, slanted := RowSum(g, 0, n + 1), RowSum(Slanted(g), 0, 2 * n + 1);
    forall i | 0 <= i < n + 1
      ensures rows(i) == slanted(i)
    {
      SumRowBySlant(g, n, i);
    }
    SumEqual(rows, slanted, 0, n + 1);
    SumSwap(Slanted(g), 0, n + 1, 0, 2 * n + 1);
  }
}
