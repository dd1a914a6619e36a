/** What the bound is about: the trials one by one, as the ledger judges them (evals/harness.py). */
module RecordedError {
  import opened FiniteSums
  import opened Binomials
  import opened Draws
  import opened FisherTest
  import opened TwoLooks
  import opened ErrorRate
  import opened TrialLedger

  // ---- every `holds` is one of the two looks ---------------------------------------------------

  lemma TotalOfOne(run: Run)
    ensures Total([run]) == run
  {
    assert [run][..0] == [];
    assert Total([]) == Counts.Run(0, 0, 0);
  }

  lemma TotalOfTwo(a: Run, b: Run)
    ensures Total([a, b]) == Counts.Run(a.trials + b.trials, a.withPassed + b.withPassed, a.withoutPassed + b.withoutPassed)
  {
    assert [a, b][..1] == [a];
    TotalOfOne(a);
  }

  /** The verdicts of one run and of two, as the two looks judge them. */
  lemma VerdictsOfLooks(n: nat, a: Run, b: Run)
    requires a.trials == b.trials == n
    ensures VerdictOf([a]) == Judge(a.withPassed, a.withoutPassed, n, 1).1
    ensures VerdictOf([a, b]) == Judge(a.withPassed + b.withPassed, a.withoutPassed + b.withoutPassed, 2 * n, 2).1
  {
    TotalOfOne(a);
    VerdictFromTotal([a], a);
    TotalOfTwo(a, b);
    VerdictFromTotal([a, b], Counts.Run(2 * n, a.withPassed + b.withPassed, a.withoutPassed + b.withoutPassed));
  }

  lemma VerdictFromTotal(runs: seq<Run>, total: Run)
    requires runs != [] && Total(runs) == total
    ensures VerdictOf(runs) == Judge(total.withPassed, total.withoutPassed, total.trials, |runs|).1
  {
  }

  /** Which counts of two runs are held. */
  type Holding = (int, int, int, int) -> bool

  function HeldOf(n: nat): Holding {
    (w1, o1, w2, o2) => InRange(n, w1, o1) && InRange(n, w2, o2) && Held(n, w1, o1, w2, o2)
  }

  /** The first run is judged `holds`, or leaves it open and both together are. */
  predicate Agrees(judge: seq<Run> -> Verdict, held: Holding, a: Run, b: Run) {
    held(a.withPassed, a.withoutPassed, b.withPassed, b.withoutPassed)
    <==> judge([a]) == Verdict.Holds || (judge([a]) == Undecided && judge([a, b]) == Verdict.Holds)
  }

  ghost predicate AllAgree(n: nat, judge: seq<Run> -> Verdict, held: Holding) {
    forall a: Run, b: Run {:trigger Agrees(judge, held, a, b)} :: a.trials == b.trials == n ==> Agrees(judge, held, a, b)
  }

  lemma HeldByTwo(n: nat, w1: nat, o1: nat, w2: nat, o2: nat, one: Verdict, two: Verdict)
    requires w1 <= n && o1 <= n && w2 <= n && o2 <= n
    requires one == Judge(w1, o1, n, 1).1 && two == Judge(w1 + w2, o1 + o2, 2 * n, 2).1
    ensures Held(n, w1, o1, w2, o2) <==> one == Verdict.Holds || (one == Undecided && two == Verdict.Holds)
  {
  }

  lemma HeldOfIs(n: nat, w1: nat, o1: nat, w2: nat, o2: nat, h: bool)
    requires w1 <= n && o1 <= n && w2 <= n && o2 <= n && h == Held(n, w1, o1, w2, o2)
    ensures HeldOf(n)(w1, o1, w2, o2) == h
  {
  }

  lemma HeldByLooks(n: nat, a: Run, b: Run, one: Verdict, two: Verdict, h: bool)
    requires a.trials == b.trials == n && one == VerdictOf([a]) && two == VerdictOf([a, b])
    requires h == Held(n, a.withPassed, a.withoutPassed, b.withPassed, b.withoutPassed)
    ensures h <==> one == Verdict.Holds || (one == Undecided && two == Verdict.Holds)
  {
    VerdictsOfLooks(n, a, b);
    HeldByTwo(n, a.withPassed, a.withoutPassed, b.withPassed, b.withoutPassed, one, two);
  }

  lemma AgreesWhen(judge: seq<Run> -> Verdict, held: Holding, a: Run, b: Run, h: bool)
    requires held(a.withPassed, a.withoutPassed, b.withPassed, b.withoutPassed) == h
    requires h <==> judge([a]) == Verdict.Holds || (judge([a]) == Undecided && judge([a, b]) == Verdict.Holds)
    ensures Agrees(judge, held, a, b)
  {
  }

  lemma HeldOfLooks(n: nat, a: Run, b: Run)
    requires a.trials == b.trials == n
    ensures Agrees(VerdictOf, HeldOf(n), a, b)
  {
    var h := Held(n, a.withPassed, a.withoutPassed, b.withPassed, b.withoutPassed);
    HeldByLooks(n, a, b, VerdictOf([a]), VerdictOf([a, b]), h);
    HeldOfIs(n, a.withPassed, a.withoutPassed, b.withPassed, b.withoutPassed, h);
    AgreesWhen(VerdictOf, HeldOf(n), a, b, h);
  }

  /** `Held` is what the ledger does with one run and with two. */
  lemma HeldIsJudged(n: nat)
    ensures AllAgree(n, VerdictOf, HeldOf(n))
  {
    forall a: Run, b: Run | a.trials == b.trials == n ensures Agrees(VerdictOf, HeldOf(n), a, b) {
      HeldOfLooks(n, a, b);
    }
  }

  lemma AtMostTwo(runs: seq<Run>)
    requires EachBegunOpen(VerdictOf, runs)
    ensures |runs| <= 2
  {
    var begun := runs[..if |runs| > 2 then 2 else 0];
    assert |begun| == 2 ==> VerdictOf(begun) != Undecided;
  }

  /** The runs, a second one supplied when there is only one, are held. */
  predicate HeldIn(held: Holding, runs: seq<Run>, unseen: Run) {
    && 1 <= |runs| <= 2
    && var second := if |runs| == 2 then runs[1] else unseen;
    held(runs[0].withPassed, runs[0].withoutPassed, second.withPassed, second.withoutPassed)
  }

  lemma HoldIsHeld(n: nat, judge: seq<Run> -> Verdict, held: Holding, runs: seq<Run>, unseen: Run)
    requires AllAgree(n, judge, held) && unseen.trials == n && forall k :: 0 <= k < |runs| ==> runs[k].trials == n
    requires 1 <= |runs| <= 2 && EachBegunOpen(judge, runs) && judge(runs) == Verdict.Holds
    ensures HeldIn(held, runs, unseen)
  {
    var second := if |runs| == 2 then runs[1] else unseen;
    assert Agrees(judge, held, runs[0], second);
    if |runs| == 2 {
      assert runs[..1] == [runs[0]] && runs == [runs[0], second];
      assert judge(runs[..1]) == Undecided;
    } else {
      assert runs == [runs[0]];
    }
  }

  /** However many runs of n trials an arm are made while the verdict is open: when they end in `holds`,
      there are one or two of them, and they are counted by `Held`, whatever a second run had brought. */
  lemma EveryHoldIsHeld(n: nat, runs: seq<Run>, unseen: Run)
    requires forall k :: 0 <= k < |runs| ==> runs[k].trials == n
    requires EachBegunOpen(VerdictOf, runs) && VerdictOf(runs) == Verdict.Holds && unseen.trials == n
    ensures HeldIn(HeldOf(n), runs, unseen)
  {
    AtMostTwo(runs);
    HeldIsJudged(n);
    HoldIsHeld(n, VerdictOf, HeldOf(n), runs, unseen);
  }

  /** So is every record that says `holds`. */
  lemma RecordedHoldIsHeld(scenario: Scenario, document: Document, taken: Taken, unseen: Run)
    requires scenario.judge == VerdictOf && SoundDocument(scenario, document, taken)
    requires document.verdict == Verdict.Holds && unseen.trials == scenario.trials
    ensures 1 <= |document.runs| <= 2
    ensures HeldIn(HeldOf(scenario.trials), document.runs, unseen)
  {
    RunsHaveTheirTrials(scenario, document, taken);
    EveryHoldIsHeld(scenario.trials, document.runs, unseen);
  }

  lemma RunsHaveTheirTrials(scenario: Scenario, document: Document, taken: Taken)
    requires SoundDocument(scenario, document, taken)
    ensures forall k :: 0 <= k < |document.runs| ==> document.runs[k].trials == scenario.trials
  {
    forall k | 0 <= k < |document.runs| ensures document.runs[k].trials == scenario.trials {
      RunCounts(scenario.trials, taken, |document.runs|, k);
    }
  }

  // ---- trial by trial -----------------------------------------------------------------------------

  /** A run over the trials of its arms, `with` first. */
  function RunOver(n: nat, trials: seq<bool>): Run
    requires |trials| == 2 * n
  {
    Counts.Run(n, Passes(trials[..n]), Passes(trials[n..]))
  }

  /** What the ledger records when these trials are drawn in order: a second run is begun only while the
      first leaves the verdict open, and trials it has no use for are not looked at. */
  function Recorded(judge: seq<Run> -> Verdict, n: nat, trials: seq<bool>): Verdict
    requires |trials| == 4 * n
  {
    var first := RunOver(n, trials[..2 * n]);
    if judge([first]) != Undecided then judge([first])
    else judge([first, RunOver(n, trials[2 * n..])])
  }

  /** The trials end in a record that says `holds`. */
  function EndsHeld(judge: seq<Run> -> Verdict, n: nat): seq<bool> -> bool {
    (trials: seq<bool>) => |trials| == 4 * n && Recorded(judge, n, trials) == Verdict.Holds
  }

  /** The probability that m more independent trials, each passing at rate q, end well. */
  function Chance(q: real, m: nat, drawn: seq<bool>, good: seq<bool> -> bool): real {
    if m == 0 then if good(drawn) then 1.0 else 0.0
    else q * Chance(q, m - 1, drawn + [true], good) + (1.0 - q) * Chance(q, m - 1, drawn + [false], good)
  }

  lemma MassOfWays(q: real, m: nat, drawn: seq<bool>, good: seq<bool> -> bool)
    requires m > 0
    ensures Mass(WaysRow(m, drawn, good), q, m, m + 1)
            == Blend(q, 1.0 - q, Mass(WaysRow(m - 1, drawn + [true], good), q, m - 1, m),
                                 Mass(WaysRow(m - 1, drawn + [false], good), q, m - 1, m))
  {
    var row, passed, failed := WaysRow(m, drawn, good), WaysRow(m - 1, drawn + [true], good), WaysRow(m - 1, drawn + [false], good);
    WaysOutside(m - 1, drawn + [true], good, -1);
    WaysOutside(m - 1, drawn + [false], good, m);
    forall t: int ensures row(t) == passed(t - 1) + failed(t) {
    }
    MassSplits(row, passed, failed, q, m);
  }

  lemma ChanceStep(q: real, m: nat, drawn: seq<bool>, good: seq<bool> -> bool)
    requires m > 0
    ensures Chance(q, m, drawn, good)
            == Blend(q, 1.0 - q, Chance(q, m - 1, drawn + [true], good), Chance(q, m - 1, drawn + [false], good))
  {
  }

  /** Trial by trial, or by the number of passes: the probability is the same. */
  lemma {:induction false} ChanceByPasses(q: real, m: nat, drawn: seq<bool>, good: seq<bool> -> bool)
    ensures Chance(q, m, drawn, good) == Mass(WaysRow(m, drawn, good), q, m, m + 1)
  {
    if m == 0 {
      MassOfOne(WaysRow(0, drawn, good), q);
    } else {
      ChanceStep(q, m, drawn, good);
      MassOfWays(q, m, drawn, good);
      ChanceByPasses(q, m - 1, drawn + [true], good);
      ChanceByPasses(q, m - 1, drawn + [false], good);
    }
  }

  // ---- four arms, one after another ----------------------------------------------------------------

  /** What n trials each of four arms count for, by the passes of each. */
  type Worth = (int, int, int, int) -> nat

  function LastArm(worth: Worth, w1: int, o1: int, w2: int): int -> nat {
    o2 => worth(w1, o1, w2, o2)
  }

  function ThirdArm(n: nat, worth: Worth, w1: int, o1: int): int -> nat {
    w2 => Sum(Chosen(n, LastArm(worth, w1, o1, w2)), 0, n + 1)
  }

  function SecondArm(n: nat, worth: Worth, w1: int): int -> nat {
    o1 => Sum(Chosen(n, ThirdArm(n, worth, w1, o1)), 0, n + 1)
  }

  function FirstArm(n: nat, worth: Worth): int -> nat {
    w1 => Sum(Chosen(n, SecondArm(n, worth, w1)), 0, n + 1)
  }

  /** Four arms in a row end well, with t passes, exactly when their counts are worth one. */
  predicate WorthIs(t: int, good: seq<bool> -> bool, worth: Worth, a: seq<bool>, b: seq<bool>, c: seq<bool>, d: seq<bool>) {
    (if Passes(a) + Passes(b) + Passes(c) + Passes(d) == t && good(a + b + c + d) then 1 else 0)
    == worth(Passes(a), Passes(b), Passes(c), Passes(d))
  }

  ghost predicate WorthOf(n: nat, t: int, good: seq<bool> -> bool, worth: Worth) {
    forall a: seq<bool>, b: seq<bool>, c: seq<bool>, d: seq<bool> {:trigger WorthIs(t, good, worth, a, b, c, d)} :: |a| == |b| == |c| == |d| == n ==> WorthIs(t, good, worth, a, b, c, d)
  }

  lemma LastLeadsAt(n: nat, t: int, good: seq<bool> -> bool, worth: Worth, a: seq<bool>, b: seq<bool>, c: seq<bool>, d: seq<bool>)
    requires WorthIs(t, good, worth, a, b, c, d)
    ensures LeadsAt(0, a + b + c, good, t - Passes(a) - Passes(b) - Passes(c), LastArm(worth, Passes(a), Passes(b), Passes(c)), d)
  {
  }

  lemma LastLeadsTo(n: nat, r: nat, t: int, good: seq<bool> -> bool, worth: Worth, a: seq<bool>, b: seq<bool>, c: seq<bool>)
    requires WorthOf(n, t, good, worth) && |a| == |b| == |c| == n && r == 0
    ensures LeadsTo(n, r, a + b + c, good, t - Passes(a) - Passes(b) - Passes(c), LastArm(worth, Passes(a), Passes(b), Passes(c)))
  {
    var left, value := t - Passes(a) - Passes(b) - Passes(c), LastArm(worth, Passes(a), Passes(b), Passes(c));
    forall d: seq<bool> | |d| == n ensures LeadsAt(r, a + b + c, good, left, value, d) {
      LastLeadsAt(n, t, good, worth, a, b, c, d);
    }
  }

  lemma LastWays(n: nat, drawn: seq<bool>, good: seq<bool> -> bool, left: int, value: int -> nat)
    requires LeadsTo(n, 0, drawn, good, left, value)
    ensures Ways(n, drawn, good, left) == Sum(Chosen(n, value), 0, n + 1)
  {
    WaysByPasses(n, 0, drawn, good, left, value);
  }

  lemma LastLeads(n: nat, t: int, good: seq<bool> -> bool, worth: Worth, a: seq<bool>, b: seq<bool>, c: seq<bool>)
    requires WorthOf(n, t, good, worth) && |a| == |b| == |c| == n
    ensures Ways(n, a + b + c, good, t - Passes(a) - Passes(b) - Passes(c)) == ThirdArm(n, worth, Passes(a), Passes(b))(Passes(c))
  {
    LastLeadsTo(n, 0, t, good, worth, a, b, c);
    LastWays(n, a + b + c, good, t - Passes(a) - Passes(b) - Passes(c), LastArm(worth, Passes(a), Passes(b), Passes(c)));
  }

  lemma ThirdLeads(n: nat, t: int, good: seq<bool> -> bool, worth: Worth, a: seq<bool>, b: seq<bool>)
    requires WorthOf(n, t, good, worth) && |a| == |b| == n
    ensures Ways(2 * n, a + b, good, t - Passes(a) - Passes(b)) == SecondArm(n, worth, Passes(a))(Passes(b))
  {
    var left, value := t - Passes(a) - Passes(b), ThirdArm(n, worth, Passes(a), Passes(b));
    forall c: seq<bool> | |c| == n ensures LeadsAt(n, a + b, good, left, value, c) {
      LastLeads(n, t, good, worth, a, b, c);
    }
    WaysByPasses(n, n, a + b, good, left, value);
  }

  lemma SecondLeads(n: nat, t: int, good: seq<bool> -> bool, worth: Worth, a: seq<bool>)
    requires WorthOf(n, t, good, worth) && |a| == n
    ensures Ways(3 * n, a, good, t - Passes(a)) == FirstArm(n, worth)(Passes(a))
  {
    var left, value := t - Passes(a), SecondArm(n, worth, Passes(a));
    forall b: seq<bool> | |b| == n ensures LeadsAt(2 * n, a, good, left, value, b) {
      ThirdLeads(n, t, good, worth, a, b);
    }
    WaysByPasses(n, 2 * n, a, good, left, value);
  }

  lemma FirstLeads(n: nat, t: int, good: seq<bool> -> bool, worth: Worth)
    requires WorthOf(n, t, good, worth)
    ensures Ways(4 * n, [], good, t) == Sum(Chosen(n, FirstArm(n, worth)), 0, n + 1)
  {
    forall a: seq<bool> | |a| == n ensures LeadsAt(3 * n, [], good, t, FirstArm(n, worth), a) {
      assert [] + a == a;
      SecondLeads(n, t, good, worth, a);
    }
    WaysByPasses(n, 3 * n, [], good, t, FirstArm(n, worth));
  }

  // ---- the arms of the ledger's two runs --------------------------------------------------------------

  /** One for four counts that have t passes and are held, else nothing. */
  function Hit(n: nat, t: int, held: Holding): Worth {
    (w1, o1, w2, o2) => if w1 + o1 + w2 + o2 == t && held(w1, o1, w2, o2) then 1 else 0
  }

  lemma FourArms(n: nat, a: seq<bool>, b: seq<bool>, c: seq<bool>, d: seq<bool>)
    requires |a| == |b| == |c| == |d| == n
    ensures var all := a + b + c + d;
            && |all| == 4 * n && all[..2 * n] == a + b && all[2 * n..] == c + d
            && RunOver(n, a + b) == Counts.Run(n, Passes(a), Passes(b)) && RunOver(n, c + d) == Counts.Run(n, Passes(c), Passes(d))
  {
    assert (a + b)[..n] == a && (a + b)[n..] == b && (c + d)[..n] == c && (c + d)[n..] == d;
  }

  /** What four arms in a row are recorded as is what is held of their counts. */
  lemma RecordedIsHeld(n: nat, judge: seq<Run> -> Verdict, held: Holding, a: seq<bool>, b: seq<bool>, c: seq<bool>, d: seq<bool>)
    requires AllAgree(n, judge, held) && |a| == |b| == |c| == |d| == n
    ensures EndsHeld(judge, n)(a + b + c + d) <==> held(Passes(a), Passes(b), Passes(c), Passes(d))
  {
    FourArms(n, a, b, c, d);
    assert Agrees(judge, held, Counts.Run(n, Passes(a), Passes(b)), Counts.Run(n, Passes(c), Passes(d)));
  }

  lemma WholeIsHit(n: nat, t: int, judge: seq<Run> -> Verdict, held: Holding)
    requires AllAgree(n, judge, held)
    ensures WorthOf(n, t, EndsHeld(judge, n), Hit(n, t, held))
  {
    forall a: seq<bool>, b: seq<bool>, c: seq<bool>, d: seq<bool> | |a| == |b| == |c| == |d| == n
      ensures WorthIs(t, EndsHeld(judge, n), Hit(n, t, held), a, b, c, d)
    {
      RecordedIsHeld(n, judge, held, a, b, c, d);
    }
  }

  // ---- and the same, summed over the square of each run ------------------------------------------------

  lemma CellIsHit(n: nat, t: int, w1: int, o1: int, w2: int, o2: int)
    ensures Tabled(n, CellTable(n, t), Hit(n, t, HeldOf(n)), w1, o1, w2, o2)
  {
    TimesHit(Choose(n, w1) * Choose(n, o1), Choose(n, w2), Choose(n, o2), Hit(n, t, HeldOf(n))(w1, o1, w2, o2));
  }

  function CellTable(n: nat, t: int): Worth {
    (w1, o1, w2, o2) => Cell(n, t, w1, o1, w2, o2)
  }

  lemma TimesHit(a: nat, b: nat, c: nat, hit: nat)
    requires hit <= 1
    ensures a * (b * (c * hit)) == if hit == 1 then a * (b * c) else 0
  {
  }

  predicate ScaledAt(n: nat, c: nat, d: nat, row: int -> nat, value: int -> nat, k: int) {
    row(k) == c * (d * (Choose(n, k) * value(k)))
  }

  ghost predicate AllScaled(n: nat, c: nat, d: nat, row: int -> nat, value: int -> nat) {
    forall k: int {:trigger ScaledAt(n, c, d, row, value, k)} :: ScaledAt(n, c, d, row, value, k)
  }

  /** One row of a run's square, its constants taken out of the sum. */
  lemma RowIsScaled(n: nat, c: nat, d: nat, row: int -> nat, value: int -> nat)
    requires AllScaled(n, c, d, row, value)
    ensures Sum(row, 0, n + 1) == c * (d * Sum(Chosen(n, value), 0, n + 1))
  {
    var weighted := Chosen(n, value);
    var inner := k => d * weighted(k);
    ScaledSum(d, weighted, inner, n + 1);
    forall k: int ensures row(k) == c * inner(k) {
      assert ScaledAt(n, c, d, row, value, k);
    }
    ScaledSum(c, inner, row, n + 1);
  }

  lemma ScaledSum(c: nat, f: int -> nat, g: int -> nat, hi: int)
    requires forall k: int :: g(k) == c * f(k)
    ensures Sum(g, 0, hi) == c * Sum(f, 0, hi)
  {
    SumScale(c, f, 0, hi);
    SumEqual(g, i => c * f(i), 0, hi);
  }

  /** An entry of the table is what its counts are worth, as often as they come. */
  predicate Tabled(n: nat, table: Worth, worth: Worth, w1: int, o1: int, w2: int, o2: int) {
    table(w1, o1, w2, o2) == (Choose(n, w1) * Choose(n, o1)) * (Choose(n, w2) * (Choose(n, o2) * worth(w1, o1, w2, o2)))
  }

  ghost predicate AllTabled(n: nat, table: Worth, worth: Worth) {
    forall w1: int, o1: int, w2: int, o2: int {:trigger Tabled(n, table, worth, w1, o1, w2, o2)} :: Tabled(n, table, worth, w1, o1, w2, o2)
  }

  function SecondRun(table: Worth, w1: int, o1: int): (int, int) -> nat {
    (w2, o2) => table(w1, o1, w2, o2)
  }

  function BothRuns(n: nat, table: Worth): (int, int) -> nat {
    (w1, o1) => Square(SecondRun(table, w1, o1), n)
  }

  lemma LastRow(n: nat, table: Worth, worth: Worth, w1: int, o1: int, w2: int)
    requires AllTabled(n, table, worth)
    ensures RowSum(SecondRun(table, w1, o1), 0, n + 1)(w2)
            == (Choose(n, w1) * Choose(n, o1)) * (1 * (Choose(n, w2) * ThirdArm(n, worth, w1, o1)(w2)))
  {
    var c, cells, value := Choose(n, w1) * Choose(n, o1), SecondRun(table, w1, o1), LastArm(worth, w1, o1, w2);
    var row := j => cells(w2, j);
    forall o2: int ensures ScaledAt(n, c, Choose(n, w2), row, value, o2) {
      assert Tabled(n, table, worth, w1, o1, w2, o2);
    }
    RowIsScaled(n, c, Choose(n, w2), row, value);
    SumEqual(row, j => cells(w2, j), 0, n + 1);
  }

  lemma SecondSquare(n: nat, table: Worth, worth: Worth, w1: int, o1: int)
    requires AllTabled(n, table, worth)
    ensures BothRuns(n, table)(w1, o1) == (Choose(n, w1) * Choose(n, o1)) * (1 * SecondArm(n, worth, w1)(o1))
  {
    var c, rows, value := Choose(n, w1) * Choose(n, o1), RowSum(SecondRun(table, w1, o1), 0, n + 1), ThirdArm(n, worth, w1, o1);
    forall w2: int ensures ScaledAt(n, c, 1, rows, value, w2) {
      LastRow(n, table, worth, w1, o1, w2);
    }
    RowIsScaled(n, c, 1, rows, value);
  }

  lemma FirstRow(n: nat, table: Worth, worth: Worth, w1: int)
    requires AllTabled(n, table, worth)
    ensures RowSum(BothRuns(n, table), 0, n + 1)(w1) == 1 * (1 * (Choose(n, w1) * FirstArm(n, worth)(w1)))
  {
    var cells, value := BothRuns(n, table), SecondArm(n, worth, w1);
    var row := j => cells(w1, j);
    forall o1: int ensures ScaledAt(n, 1, Choose(n, w1), row, value, o1) {
      SecondSquare(n, table, worth, w1, o1);
      Regroup(Choose(n, w1), Choose(n, o1), value(o1));
    }
    RowIsScaled(n, 1, Choose(n, w1), row, value);
    SumEqual(row, j => cells(w1, j), 0, n + 1);
  }

  lemma TableIsWeighted(n: nat, table: Worth, worth: Worth)
    requires AllTabled(n, table, worth)
    ensures Square(BothRuns(n, table), n) == Sum(Chosen(n, FirstArm(n, worth)), 0, n + 1)
  {
    var rows, value := RowSum(BothRuns(n, table), 0, n + 1), FirstArm(n, worth);
    forall w1: int ensures ScaledAt(n, 1, 1, rows, value, w1) {
      FirstRow(n, table, worth, w1);
    }
    RowIsScaled(n, 1, 1, rows, value);
  }

  lemma CellsAreTabled(n: nat, t: int)
    ensures HeldArrangements(n, t) == Square(BothRuns(n, CellTable(n, t)), n)
  {
    var table := CellTable(n, t);
    forall w1, o1 | 0 <= w1 <= n && 0 <= o1 <= n ensures Cells(n, t)(w1, o1) == BothRuns(n, table)(w1, o1) {
      SquareEqual(CellsAt(n, t, w1, o1), SecondRun(table, w1, o1), n);
    }
    SquareEqual(Cells(n, t), BothRuns(n, table), n);
  }

  /** The arrangements that end in `holds` are the ways to draw the 4n trials, with t of them passing, for
      which the ledger records it. */
  lemma HeldArrangementsAreWays(n: nat, t: int)
    ensures Ways(4 * n, [], EndsHeld(VerdictOf, n), t) == HeldArrangements(n, t)
  {
    var hit := Hit(n, t, HeldOf(n));
    forall w1: int, o1: int, w2: int, o2: int ensures Tabled(n, CellTable(n, t), hit, w1, o1, w2, o2) {
      CellIsHit(n, t, w1, o1, w2, o2);
    }
    TableIsWeighted(n, CellTable(n, t), hit);
    CellsAreTabled(n, t);
    HeldIsJudged(n);
    WholeIsHit(n, t, VerdictOf, HeldOf(n));
    FirstLeads(n, t, EndsHeld(VerdictOf, n), hit);
  }

  lemma Regroup(a: nat, b: nat, x: nat)
    ensures (a * b) * (1 * x) == 1 * (a * (b * x))
  {
  }

  /** For a sentence that does nothing, the trials of both arms all passing at one rate: the probability
      that the ledger comes to record `holds` is at most 0.05. */
  lemma RecordedAtMost(n: nat, q: real)
    requires 0.0 <= q <= 1.0
    ensures Chance(q, 4 * n, [], EndsHeld(VerdictOf, n)) == WronglyHeld(n, q) <= 0.05
  {
    var good := EndsHeld(VerdictOf, n);
    ChanceByPasses(q, 4 * n, [], good);
    forall t: int ensures WaysRow(4 * n, [], good)(t) == HeldRow(n)(t) {
      HeldArrangementsAreWays(n, t);
    }
    MassEqual(WaysRow(4 * n, [], good), HeldRow(n), q, 4 * n, 4 * n + 1);
    WronglyHeldAtMost(n, q);
  }

  lemma {:induction false} MassEqual(f: int -> nat, g: int -> nat, q: real, m: nat, hi: nat)
    requires forall t: int :: f(t) == g(t)
    ensures Mass(f, q, m, hi) == Mass(g, q, m, hi)
  {
    if hi > 0 {
      MassEqual(f, g, q, m, hi - 1);
    }
  }
}
