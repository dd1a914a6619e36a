/** The record of one scenario under one key, filled trial by trial and closed run by run, whatever
    stops it on the way (evals/harness.py). */
module TrialLedger {
  import opened Optional
  import opened Draws
  import opened FisherTest

  datatype Arm = With | Without

  /** What a record is about: the model, each arm's launch digest, and the rest of the key. */
  datatype Key = Key(model: string, withDigest: string, withoutDigest: string, rest: string) {
    function Digest(arm: Arm): string {
      if arm == With then withDigest else withoutDigest
    }
  }

  datatype Trial = Trial(passed: bool, digest: string, models: set<string>)

  datatype Counts = Run(trials: nat, withPassed: nat, withoutPassed: nat)

  /** A closed run: no arm passes more trials than it had. */
  type Run = run: Counts | run.withPassed <= run.trials && run.withoutPassed <= run.trials witness Counts.Run(0, 0, 0)

  datatype Abort = Abort(arm: Arm, trial: nat)

  datatype Pending = Pending(withTrials: seq<bool>, withoutTrials: seq<bool>, aborted: seq<Abort>) {
    function Of(arm: Arm): seq<bool> {
      if arm == With then withTrials else withoutTrials
    }

    function Plus(arm: Arm, passed: bool): Pending {
      if arm == With then this.(withTrials := withTrials + [passed])
      else this.(withoutTrials := withoutTrials + [passed])
    }
  }

  datatype Document = Document(key: Key, runs: seq<Run>, pending: Option<Pending>, verdict: Verdict)

  // ---- judging a record --------------------------------------------------------------------

  function Total(runs: seq<Run>): Run {
    if runs == [] then Run(0, 0, 0)
    else
      var rest, last := Total(runs[..|runs| - 1]), runs[|runs| - 1];
      Run(rest.trials + last.trials, rest.withPassed + last.withPassed, rest.withoutPassed + last.withoutPassed)
  }

  /** The verdict `_write` records: every trial of every closed run, judged together. */
  function VerdictOf(runs: seq<Run>): (verdict: Verdict)
    ensures runs == [] ==> verdict == Undecided
    ensures |runs| >= 2 ==> verdict != Undecided
  {
    if runs == [] then Undecided
    else
      var total := Total(runs);
      Judge(total.withPassed, total.withoutPassed, total.trials, |runs|).1
  }

  /** How a scenario is judged; the record is right for any sequential test, and `VerdictOf` is the one
      it is kept for. */
  datatype Scenario = Scenario(trials: nat, judge: seq<Run> -> Verdict)

  /** Open before the first look, decided by the last. */
  ghost predicate IsSequential(judge: seq<Run> -> Verdict) {
    judge([]) == Undecided && forall runs :: |runs| >= LOOKS ==> judge(runs) != Undecided
  }

  lemma TheTestIsSequential()
    ensures IsSequential(VerdictOf)
  {
  }

  // ---- what the record should hold ---------------------------------------------------------

  /** Every trial taken under the key, in the order taken. */
  datatype Taken = Taken(withTrials: seq<bool>, withoutTrials: seq<bool>) {
    function Of(arm: Arm): seq<bool> {
      if arm == With then withTrials else withoutTrials
    }

    function Plus(arm: Arm, passed: bool): Taken {
      if arm == With then this.(withTrials := withTrials + [passed])
      else this.(withoutTrials := withoutTrials + [passed])
    }
  }

  const NOTHING: Taken := Taken([], [])

  /** How many trials of an arm n whole runs hold. */
  function Cut(trials: nat, n: nat): nat {
    if n == 0 then 0 else Cut(trials, n - 1) + trials
  }

  lemma {:induction false} CutIsProduct(trials: nat, n: nat)
    ensures Cut(trials, n) == trials * n
  {
    if n > 0 {
      CutIsProduct(trials, n - 1);
    }
  }

  /** n runs of exactly `trials` trials per arm, cut from the front of what was taken. */
  function RunsOf(trials: nat, taken: Taken, n: nat): (runs: seq<Run>)
    requires Cut(trials, n) <= |taken.withTrials| && Cut(trials, n) <= |taken.withoutTrials|
    ensures |runs| == n
  {
    if n == 0 then []
    else
      RunsOf(trials, taken, n - 1) +
      [Run(trials, Passes(taken.withTrials[Cut(trials, n - 1)..Cut(trials, n)]),
                   Passes(taken.withoutTrials[Cut(trials, n - 1)..Cut(trials, n)]))]
  }

  /** The trials of the run that is open, when one is. */
  function InOpenRun(pending: Option<Pending>): Taken {
    match pending
    case None => NOTHING
    case Some(p) => Taken(p.withTrials, p.withoutTrials)
  }

  /** The closed runs and the pending one hold exactly what was taken: nothing dropped, nothing twice. */
  ghost predicate Holds(trials: nat, runs: seq<Run>, pending: Option<Pending>, taken: Taken) {
    && Cut(trials, |runs|) <= |taken.withTrials| <= Cut(trials, |runs|) + trials
    && Cut(trials, |runs|) <= |taken.withoutTrials| <= Cut(trials, |runs|) + trials
    && runs == RunsOf(trials, taken, |runs|)
    && InOpenRun(pending) == Taken(taken.withTrials[Cut(trials, |runs|)..], taken.withoutTrials[Cut(trials, |runs|)..])
  }

  /** Each of the runs was begun with the verdict open. */
  ghost predicate EachBegunOpen(judge: seq<Run> -> Verdict, runs: seq<Run>) {
    forall k :: 0 <= k < |runs| ==> judge(runs[..k]) == Undecided
  }

  /** And a run is open only while the verdict is open, which is never after the last look. */
  ghost predicate Sound(scenario: Scenario, runs: seq<Run>, pending: Option<Pending>, taken: Taken) {
    && Holds(scenario.trials, runs, pending, taken)
    && EachBegunOpen(scenario.judge, runs)
    && |runs| <= LOOKS
    && (pending.Some? ==> scenario.judge(runs) == Undecided)
  }

  ghost predicate SoundDocument(scenario: Scenario, document: Document, taken: Taken) {
    Sound(scenario, document.runs, document.pending, taken) && document.verdict == scenario.judge(document.runs)
  }

  lemma UndecidedMeansAnotherLook(scenario: Scenario, runs: seq<Run>, pending: Option<Pending>, taken: Taken)
    requires Sound(scenario, runs, pending, taken) && IsSequential(scenario.judge) && scenario.judge(runs) == Undecided
    ensures |runs| < LOOKS
  {
  }

  lemma SamePart(a: seq<bool>, b: seq<bool>, from: nat, to: nat)
    requires a <= b && from <= to <= |a|
    ensures a[from..to] == b[from..to]
  {
  }

  lemma {:induction false} RunsOfLonger(trials: nat, a: Taken, b: Taken, n: nat)
    requires a.withTrials <= b.withTrials && a.withoutTrials <= b.withoutTrials
    requires Cut(trials, n) <= |a.withTrials| && Cut(trials, n) <= |a.withoutTrials|
    ensures RunsOf(trials, a, n) == RunsOf(trials, b, n)
  {
    if n > 0 {
      var from, to := Cut(trials, n - 1), Cut(trials, n);
      RunsOfLonger(trials, a, b, n - 1);
      SamePart(a.withTrials, b.withTrials, from, to);
      SamePart(a.withoutTrials, b.withoutTrials, from, to);
    }
  }

  lemma TailAfter(a: seq<bool>, n: nat, last: bool)
    requires n <= |a|
    ensures (a + [last])[n..] == a[n..] + [last]
  {
  }

  lemma SoundAfterTrial(scenario: Scenario, runs: seq<Run>, pending: Option<Pending>, taken: Taken, arm: Arm, passed: bool)
    requires Sound(scenario, runs, pending, taken) && pending.Some? && |pending.value.Of(arm)| < scenario.trials
    ensures Sound(scenario, runs, Some(pending.value.Plus(arm, passed)), taken.Plus(arm, passed))
  {
    RunsOfLonger(scenario.trials, taken, taken.Plus(arm, passed), |runs|);
    TailAfter(if arm == With then taken.withTrials else taken.withoutTrials, Cut(scenario.trials, |runs|), passed);
  }

  lemma SoundAfterClose(scenario: Scenario, runs: seq<Run>, pending: Option<Pending>, taken: Taken)
    requires Sound(scenario, runs, pending, taken) && pending.Some? && IsSequential(scenario.judge)
    requires |pending.value.withTrials| == |pending.value.withoutTrials| == scenario.trials
    ensures Sound(scenario, runs + [Run(scenario.trials, Passes(pending.value.withTrials), Passes(pending.value.withoutTrials))], None, taken)
  {
    UndecidedMeansAnotherLook(scenario, runs, pending, taken);
    BegunOpenSnoc(scenario.judge, runs, Run(scenario.trials, Passes(pending.value.withTrials), Passes(pending.value.withoutTrials)));
    HoldsAfterClose(scenario.trials, runs, taken, pending.value.withTrials, pending.value.withoutTrials);
  }

  lemma BegunOpenSnoc(judge: seq<Run> -> Verdict, runs: seq<Run>, run: Run)
    requires EachBegunOpen(judge, runs) && judge(runs) == Undecided
    ensures EachBegunOpen(judge, runs + [run])
  {
    forall k | 0 <= k < |runs| + 1 ensures judge((runs + [run])[..k]) == Undecided {
      assert (runs + [run])[..k] == if k < |runs| then runs[..k] else runs;
    }
  }

  lemma HoldsAfterClose(trials: nat, runs: seq<Run>, taken: Taken, w: seq<bool>, o: seq<bool>)
    requires Cut(trials, |runs|) <= |taken.withTrials| && Cut(trials, |runs|) <= |taken.withoutTrials|
    requires runs == RunsOf(trials, taken, |runs|) && |w| == |o| == trials
    requires w == taken.withTrials[Cut(trials, |runs|)..] && o == taken.withoutTrials[Cut(trials, |runs|)..]
    ensures Holds(trials, runs + [Run(trials, Passes(w), Passes(o))], None, taken)
  {
    var n, run := |runs|, Run(trials, Passes(w), Passes(o));
    OneMoreRun(trials, taken, n, w, o);
    NothingOpen(trials, taken, n + 1, runs + [run]);
  }

  lemma OneMoreRun(trials: nat, taken: Taken, n: nat, w: seq<bool>, o: seq<bool>)
    requires Cut(trials, n) <= |taken.withTrials| && Cut(trials, n) <= |taken.withoutTrials| && |w| == |o| == trials
    requires w == taken.withTrials[Cut(trials, n)..] && o == taken.withoutTrials[Cut(trials, n)..]
    ensures |taken.withTrials| == |taken.withoutTrials| == Cut(trials, n + 1)
    ensures RunsOf(trials, taken, n + 1) == RunsOf(trials, taken, n) + [Run(trials, Passes(w), Passes(o))]
  {
    assert w == taken.withTrials[Cut(trials, n)..Cut(trials, n + 1)] && o == taken.withoutTrials[Cut(trials, n)..Cut(trials, n + 1)];
  }

  lemma NothingOpen(trials: nat, taken: Taken, n: nat, runs: seq<Run>)
    requires |taken.withTrials| == |taken.withoutTrials| == Cut(trials, n) && |runs| == n
    requires runs == RunsOf(trials, taken, n)
    ensures Holds(trials, runs, None, taken)
  {
  }

  /** The trial is one of this key: the launch it was keyed on, answered by the model asked for alone. */
  predicate IsTrialOf(key: Key, arm: Arm, trial: Trial) {
    trial.digest == key.Digest(arm) && trial.models == {key.model}
  }

  // ---- the record on disk ------------------------------------------------------------------

  /** What is on disk, and the trials taken under the key it names. */
  datatype Disk = Disk(document: Option<Document>, taken: Taken) {
    predicate IsOf(key: Key) {
      document.Some? && document.value.key == key
    }

    /** What has been taken under `key`: nothing, when the record is of another. */
    function TakenUnder(key: Key): Taken {
      if IsOf(key) then taken else NOTHING
    }

    /** The runs closed under `key`. */
    function RunsUnder(key: Key): seq<Run> {
      if IsOf(key) then document.value.runs else []
    }

    predicate Decided(key: Key) {
      IsOf(key) && document.value.verdict != Undecided
    }
  }

  class RecordFile {
    var document: Option<Document>
    ghost var taken: Taken

    ghost function Now(): Disk
      reads this
    {
      Disk(document, taken)
    }

    /** A record of this key is sound for what was taken under it; one of another key may be anything. */
    ghost predicate Valid(scenario: Scenario, key: Key)
      reads this
    {
      Now().IsOf(key) ==> SoundDocument(scenario, document.value, taken)
    }

    ghost function TakenUnder(key: Key): Taken
      reads this
    {
      Now().TakenUnder(key)
    }

    ghost function RunsUnder(key: Key): seq<Run>
      reads this
    {
      Now().RunsUnder(key)
    }

    constructor (document: Option<Document>, ghost taken: Taken)
      ensures Now() == Disk(document, taken)
    {
      this.document, this.taken := document, taken;
    }
  }

  datatype Opened = Ready(ledger: Ledger) | AlreadyDecided(verdict: Verdict)

  class Ledger {
    const scenario: Scenario
    const key: Key
    const file: RecordFile
    var runs: seq<Run>
    var pending: Option<Pending>
    ghost var held: Taken

    ghost predicate Valid()
      reads this
    {
      Sound(scenario, runs, pending, held)
    }

    constructor (scenario: Scenario, key: Key, file: RecordFile, runs: seq<Run>, pending: Pending, ghost held: Taken)
      requires Sound(scenario, runs, Some(pending), held)
      ensures Valid() && this.scenario == scenario && this.key == key && this.file == file
      ensures this.runs == runs && this.pending == Some(pending) && this.held == held
    {
      this.scenario, this.key, this.file := scenario, key, file;
      this.runs, this.pending, this.held := runs, Some(pending), held;
    }

    /** `prior` and `__init__`: the record of this key is taken up where it stopped, another's is replaced,
        and a decided one is not run again. */
    static method Open(scenario: Scenario, key: Key, file: RecordFile) returns (found: Opened)
      requires file.Valid(scenario, key) && IsSequential(scenario.judge)
      ensures found.AlreadyDecided? <==> file.Now().Decided(key)
      ensures found.Ready? ==>
                && fresh(found.ledger) && found.ledger.Valid() && found.ledger.pending.Some?
                && found.ledger.file == file && found.ledger.key == key && found.ledger.scenario == scenario
                && found.ledger.held == file.TakenUnder(key) && found.ledger.runs == file.RunsUnder(key)
    {
      var empty := Pending([], [], []);
      if file.document.None? || file.document.value.key != key {
        var ledger := new Ledger(scenario, key, file, [], empty, NOTHING);
        return Ready(ledger);
      }
      var document := file.document.value;
      if document.verdict != Undecided {
        return AlreadyDecided(document.verdict);
      }
      UndecidedMeansAnotherLook(scenario, document.runs, document.pending, file.taken);
      var pending := if document.pending.Some? then document.pending.value else empty;
      assert Sound(scenario, document.runs, Some(pending), file.taken) by {
        if document.pending.None? {
          var n := Cut(scenario.trials, |document.runs|);
          assert file.taken.withTrials[n..] == [] && file.taken.withoutTrials[n..] == [];
        }
      }
      var ledger := new Ledger(scenario, key, file, document.runs, pending, file.taken);
      found := Ready(ledger);
    }

    function Remaining(arm: Arm): int
      requires pending.Some?
      reads this
    {
      scenario.trials - |pending.value.Of(arm)|
    }

    /** Written beside and moved over: either the whole new record is there, or the one before it. */
    method Write(succeeds: bool)
      requires Valid() && file.Valid(scenario, key)
      modifies file
      ensures file.Valid(scenario, key) && file.TakenUnder(key) == if succeeds then held else old(file.TakenUnder(key))
      ensures file.RunsUnder(key) == if succeeds then runs else old(file.RunsUnder(key))
      ensures file.document == if succeeds then Some(Document(key, runs, pending, scenario.judge(runs))) else old(file.document)
    {
      if succeeds {
        file.document := Some(Document(key, runs, pending, scenario.judge(runs)));
        file.taken := held;
      }
    }

    /** `pending[arm].append(passed)`. */
    method Take(arm: Arm, passed: bool)
      requires pending.Some?
      requires Sound(scenario, runs, Some(pending.value.Plus(arm, passed)), held.Plus(arm, passed))
      modifies this
      ensures Valid() && runs == old(runs)
      ensures pending == Some(old(pending).value.Plus(arm, passed)) && held == old(held).Plus(arm, passed)
    {
      pending := Some(pending.value.Plus(arm, passed));
      held := held.Plus(arm, passed);
    }

    /** Count one trial, or refuse it. False: it was refused, or the record could not be written. */
    method Add(arm: Arm, trial: Trial, writes: bool) returns (ok: bool)
      requires Valid() && pending.Some? && Remaining(arm) > 0 && file.Valid(scenario, key)
      modifies this, file
      ensures file.Valid(scenario, key) && file.TakenUnder(key) == if ok then held else old(file.TakenUnder(key))
      ensures file.RunsUnder(key) == if ok then runs else old(file.RunsUnder(key))
      ensures Valid() && pending.Some? && runs == old(runs)
      ensures IsTrialOf(key, arm, trial)
              <==> trial.digest == (if arm == With then key.withDigest else key.withoutDigest)
                   && trial.models == {key.model}
      ensures IsTrialOf(key, arm, trial) && arm == With ==>
                && pending.value == old(pending.value).(withTrials := old(pending.value.withTrials) + [trial.passed])
                && held == old(held).(withTrials := old(held.withTrials) + [trial.passed])
      ensures IsTrialOf(key, arm, trial) && arm == Without ==>
                && pending.value == old(pending.value).(withoutTrials := old(pending.value.withoutTrials) + [trial.passed])
                && held == old(held).(withoutTrials := old(held.withoutTrials) + [trial.passed])
      ensures !IsTrialOf(key, arm, trial) ==> pending == old(pending) && held == old(held)
      ensures ok <==> IsTrialOf(key, arm, trial) && writes
      ensures file.document == if ok then Some(Document(key, runs, pending, scenario.judge(runs))) else old(file.document)
    {
      if !IsTrialOf(key, arm, trial) {
        return false;
      }
      SoundAfterTrial(scenario, runs, pending, held, arm, trial.passed);
      Take(arm, trial.passed);
      Write(writes);
      ok := writes;
    }

    method RecordAbort(arm: Arm, writes: bool)
      requires Valid() && pending.Some? && file.Valid(scenario, key)
      modifies this, file
      ensures file.Valid(scenario, key) && file.TakenUnder(key) == if writes then held else old(file.TakenUnder(key))
      ensures file.RunsUnder(key) == if writes then runs else old(file.RunsUnder(key))
      ensures Valid() && runs == old(runs) && held == old(held)
      ensures pending == Some(old(pending.value).(aborted := old(pending.value.aborted) + [Abort(arm, |old(pending.value).Of(arm)| + 1)]))
      ensures file.document == if writes then Some(Document(key, runs, pending, scenario.judge(runs))) else old(file.document)
    {
      pending := Some(pending.value.(aborted := pending.value.aborted + [Abort(arm, |pending.value.Of(arm)| + 1)]));
      Write(writes);
    }

    /** Close the run, refused while an arm is not complete. */
    method Close(writes: bool) returns (ok: bool)
      requires Valid() && pending.Some? && file.Valid(scenario, key) && IsSequential(scenario.judge)
      modifies this, file
      ensures file.Valid(scenario, key) && Valid() && held == old(held)
      ensures ok == old(Remaining(With) == 0 && Remaining(Without) == 0)
      ensures !ok ==> runs == old(runs) && pending == old(pending) && file.Now() == old(file.Now())
      ensures ok ==> file.TakenUnder(key) == if writes then held else old(file.TakenUnder(key))
      ensures ok ==> pending == None
      ensures ok ==> runs == old(runs) + [Run(scenario.trials, Passes(old(pending.value.withTrials)), Passes(old(pending.value.withoutTrials)))]
      ensures ok ==> file.document == if writes then Some(Document(key, runs, None, scenario.judge(runs))) else old(file.document)
    {
      if Remaining(With) != 0 || Remaining(Without) != 0 {
        return false;
      }
      SoundAfterClose(scenario, runs, pending, held);
      runs := runs + [Run(scenario.trials, Passes(pending.value.withTrials), Passes(pending.value.withoutTrials))];
      pending := None;
      Write(writes);
      ok := true;
    }
  }

  // ---- running and resuming ----------------------------------------------------------------

  /** One launch as it turns out: a trial, or nothing to score; and whether each write goes through.
      A script that ends is a process that stopped there. */
  datatype Attempt = Attempt(trial: Option<Trial>, writes: bool, abortWrites: bool)

  /** How one run turns out: its attempts, and whether the record of the closed run is written. */
  datatype Script = Script(attempts: seq<Attempt>, closeWrites: bool)

  datatype Ended = Closed | Stopped | Refused

  /** The attempt leaves a trial in the record: it counts, and one of the two writes went through. */
  predicate Keeps(key: Key, arm: Arm, attempt: Attempt) {
    attempt.trial.Some? && IsTrialOf(key, arm, attempt.trial.value) && (attempt.writes || attempt.abortWrites)
  }

  /** What has been taken once an attempt is over. */
  function Plus(taken: Taken, key: Key, arm: Arm, attempt: Attempt): Taken {
    if Keeps(key, arm, attempt) then taken.Plus(arm, attempt.trial.value.passed) else taken
  }

  /** What has been taken once the attempts of a stretch of the script are over, in order. */
  function PlusAll(taken: Taken, key: Key, arm: Arm, script: seq<Attempt>, start: nat, next: nat): Taken
    requires start <= next <= |script|
    decreases next - start
  {
    if next == start then taken else Plus(PlusAll(taken, key, arm, script, start, next - 1), key, arm, script[next - 1])
  }

  /** The attempt ends in a trial that counts and is written, so that the run goes on. */
  predicate GoesOn(key: Key, arm: Arm, attempt: Attempt) {
    attempt.trial.Some? && IsTrialOf(key, arm, attempt.trial.value) && attempt.writes
  }

  /** Where filling the arm stops: behind the first attempt from `start` that does not go on. */
  function StopsBehind(key: Key, arm: Arm, script: seq<Attempt>, start: nat): (end: nat)
    requires start <= |script|
    ensures start <= end <= |script|
    decreases |script| - start
  {
    if start == |script| then start
    else if !GoesOn(key, arm, script[start]) then start + 1
    else StopsBehind(key, arm, script, start + 1)
  }

  /** Every attempt of a stretch of the script goes on. */
  predicate WentOn(key: Key, arm: Arm, script: seq<Attempt>, start: nat, next: nat)
    requires start <= next <= |script|
    decreases next - start
  {
    start == next || (WentOn(key, arm, script, start, next - 1) && GoesOn(key, arm, script[next - 1]))
  }

  function OtherArm(arm: Arm): Arm {
    if arm == With then Without else With
  }

  /** A run under way: sound in memory and on disk, with nothing taken that is not written. */
  ghost predicate UnderWay(ledger: Ledger)
    reads ledger, ledger.file
  {
    && ledger.Valid() && ledger.pending.Some? && ledger.file.Valid(ledger.scenario, ledger.key)
    && ledger.held == ledger.file.TakenUnder(ledger.key) && ledger.runs == ledger.file.RunsUnder(ledger.key)
  }

  /** An arm is full: it holds the trials of every closed run and of one more. */
  ghost predicate Full(scenario: Scenario, disk: Disk, key: Key, arm: Arm) {
    |disk.TakenUnder(key).Of(arm)| == Cut(scenario.trials, |disk.RunsUnder(key)| + 1)
  }

  lemma NothingRemaining(ledger: Ledger, arm: Arm)
    requires UnderWay(ledger)
    ensures Full(ledger.scenario, ledger.file.Now(), ledger.key, arm) <==> ledger.Remaining(arm) == 0
  {
    var n := |ledger.runs|;
    assert Cut(ledger.scenario.trials, n + 1) == Cut(ledger.scenario.trials, n) + ledger.scenario.trials;
    assert |ledger.held.Of(arm)| == Cut(ledger.scenario.trials, n) + |InOpenRun(ledger.pending).Of(arm)|;
  }

  /** One launch, its trial added, or else the abort written. */
  method Try(ledger: Ledger, arm: Arm, attempt: Attempt) returns (ok: bool)
    requires UnderWay(ledger) && ledger.Remaining(arm) > 0
    modifies ledger, ledger.file
    ensures ledger.file.Valid(ledger.scenario, ledger.key) && ok == GoesOn(ledger.key, arm, attempt)
    ensures ok ==> UnderWay(ledger)
    ensures ledger.file.RunsUnder(ledger.key) == old(ledger.file.RunsUnder(ledger.key))
    ensures ledger.file.TakenUnder(ledger.key) == Plus(old(ledger.file.TakenUnder(ledger.key)), ledger.key, arm, attempt)
  {
    ok := false;
    if attempt.trial.Some? {
      ok := ledger.Add(arm, attempt.trial.value, attempt.writes);
    }
    if !ok {
      ledger.RecordAbort(arm, attempt.abortWrites);
    }
  }

  /** The next attempt of the script. */
  method TryNext(ledger: Ledger, arm: Arm, script: seq<Attempt>, start: nat, next: nat, ghost taken: Taken) returns (ok: bool)
    requires UnderWay(ledger) && ledger.Remaining(arm) > 0 && start <= next < |script|
    requires WentOn(ledger.key, arm, script, start, next)
    requires ledger.file.TakenUnder(ledger.key) == PlusAll(taken, ledger.key, arm, script, start, next)
    modifies ledger, ledger.file
    ensures ledger.file.Valid(ledger.scenario, ledger.key)
    ensures ledger.file.TakenUnder(ledger.key) == PlusAll(taken, ledger.key, arm, script, start, next + 1)
    ensures ledger.file.RunsUnder(ledger.key) == old(ledger.file.RunsUnder(ledger.key))
    ensures ok ==> UnderWay(ledger) && WentOn(ledger.key, arm, script, start, next + 1)
    ensures !ok ==> next + 1 == StopsBehind(ledger.key, arm, script, start)
  {
    OneAttempt(taken, ledger.key, arm, script, start, next);
    ok := Try(ledger, arm, script[next]);
  }

  /** `while ledger.remaining(arm)`: fill one arm, stopping where an attempt fails or the process does. */
  method Fill(ledger: Ledger, arm: Arm, script: seq<Attempt>, start: nat) returns (stopped: bool, next: nat)
    requires UnderWay(ledger) && start <= |script|
    modifies ledger, ledger.file
    ensures ledger.file.Valid(ledger.scenario, ledger.key) && start <= next <= |script|
    ensures ledger.file.TakenUnder(ledger.key) == PlusAll(old(ledger.file.TakenUnder(ledger.key)), ledger.key, arm, script, start, next)
    ensures ledger.file.RunsUnder(ledger.key) == old(ledger.file.RunsUnder(ledger.key))
    ensures !stopped ==> UnderWay(ledger) && ledger.Remaining(arm) == 0
    ensures stopped ==> next == StopsBehind(ledger.key, arm, script, start) && !Full(ledger.scenario, old(ledger.file.Now()), ledger.key, arm)
    ensures !stopped ==> WentOn(ledger.key, arm, script, start, next) && Full(ledger.scenario, ledger.file.Now(), ledger.key, arm)
  {
    NothingRemaining(ledger, arm);
    ghost var taken, runs := ledger.file.TakenUnder(ledger.key), ledger.file.RunsUnder(ledger.key);
    ghost var wasFull := Full(ledger.scenario, ledger.file.Now(), ledger.key, arm);
    stopped, next := false, start;
    while !stopped && ledger.Remaining(arm) > 0
      invariant ledger.file.Valid(ledger.scenario, ledger.key) && start <= next <= |script|
      invariant ledger.file.TakenUnder(ledger.key) == PlusAll(taken, ledger.key, arm, script, start, next)
      invariant ledger.file.RunsUnder(ledger.key) == runs
      invariant !stopped ==> UnderWay(ledger) && WentOn(ledger.key, arm, script, start, next)
      invariant !stopped && wasFull ==> ledger.Remaining(arm) == 0
      invariant stopped ==> next == StopsBehind(ledger.key, arm, script, start) && !wasFull
      decreases !stopped, |script| - next
    {
      if next == |script| {
        OneAttempt(taken, ledger.key, arm, script, start, next);
        stopped := true;
      } else {
        var ok := TryNext(ledger, arm, script, start, next, taken);
        stopped, next := !ok, next + 1;
      }
    }
    if !stopped {
      NothingRemaining(ledger, arm);
    }
  }

  lemma OneAttempt(taken: Taken, key: Key, arm: Arm, script: seq<Attempt>, start: nat, next: nat)
    requires start <= next <= |script| && WentOn(key, arm, script, start, next)
    ensures next == |script| ==> StopsBehind(key, arm, script, start) == next
    ensures next < |script| ==>
              && PlusAll(taken, key, arm, script, start, next + 1) == Plus(PlusAll(taken, key, arm, script, start, next), key, arm, script[next])
              && (GoesOn(key, arm, script[next]) ==> WentOn(key, arm, script, start, next + 1))
              && (!GoesOn(key, arm, script[next]) ==> StopsBehind(key, arm, script, start) == next + 1)
  {
    StopsWhereItDoesNotGoOn(key, arm, script, start, next);
  }

  lemma {:induction false} StopsWhereItDoesNotGoOn(key: Key, arm: Arm, script: seq<Attempt>, start: nat, next: nat)
    requires start <= next <= |script| && WentOn(key, arm, script, start, next)
    ensures StopsBehind(key, arm, script, start) == StopsBehind(key, arm, script, next)
    decreases next - start
  {
    if start < next {
      StopsWhereItDoesNotGoOn(key, arm, script, start, next - 1);
    }
  }

  /** What has been taken once a run is over that turned to the without arm at `turn` and ended at `next`. */
  function PlusRun(taken: Taken, key: Key, script: seq<Attempt>, turn: nat, next: nat): Taken
    requires turn <= next <= |script|
  {
    PlusAll(PlusAll(taken, key, With, script, 0, turn), key, Without, script, turn, next)
  }

  /** Why a run stopped at `next`: in the with arm, which was not full, or with that arm full in the
      other, which was not. */
  ghost predicate StoppedAt(scenario: Scenario, key: Key, before: Disk, script: seq<Attempt>, turn: nat, next: nat, after: Disk)
    requires turn <= next <= |script|
  {
    || (!Full(scenario, before, key, With) && turn == next == StopsBehind(key, With, script, 0))
    || (!Full(scenario, before, key, Without) && Full(scenario, after, key, With)
        && WentOn(key, With, script, 0, turn) && next == StopsBehind(key, Without, script, turn))
  }

  /** Filling one arm leaves the other as full as it was. */
  lemma OtherArmUnmoved(scenario: Scenario, before: Disk, after: Disk, key: Key, arm: Arm, script: seq<Attempt>, start: nat, next: nat)
    requires start <= next <= |script|
    requires after.TakenUnder(key) == PlusAll(before.TakenUnder(key), key, arm, script, start, next)
    requires after.RunsUnder(key) == before.RunsUnder(key)
    ensures Full(scenario, after, key, OtherArm(arm)) <==> Full(scenario, before, key, OtherArm(arm))
  {
    OtherTrialsUnmoved(before.TakenUnder(key), key, arm, script, start, next);
  }

  lemma {:induction false} OtherTrialsUnmoved(taken: Taken, key: Key, arm: Arm, script: seq<Attempt>, start: nat, next: nat)
    requires start <= next <= |script|
    ensures PlusAll(taken, key, arm, script, start, next).Of(OtherArm(arm)) == taken.Of(OtherArm(arm))
    decreases next - start
  {
    if start < next {
      OtherTrialsUnmoved(taken, key, arm, script, start, next - 1);
    }
  }

  /** Both arms, the with arm first. */
  method FillBoth(ledger: Ledger, script: seq<Attempt>) returns (stopped: bool, turn: nat, next: nat)
    requires UnderWay(ledger)
    modifies ledger, ledger.file
    ensures ledger.file.Valid(ledger.scenario, ledger.key) && turn <= next <= |script|
    ensures ledger.file.TakenUnder(ledger.key) == PlusRun(old(ledger.file.TakenUnder(ledger.key)), ledger.key, script, turn, next)
    ensures ledger.file.RunsUnder(ledger.key) == old(ledger.file.RunsUnder(ledger.key))
    ensures !stopped ==> UnderWay(ledger) && ledger.Remaining(With) == 0 && ledger.Remaining(Without) == 0
    ensures !stopped ==> WentOn(ledger.key, With, script, 0, turn) && WentOn(ledger.key, Without, script, turn, next)
    ensures stopped ==> StoppedAt(ledger.scenario, ledger.key, old(ledger.file.Now()), script, turn, next, ledger.file.Now())
  {
    ghost var scenario, key, before := ledger.scenario, ledger.key, ledger.file.Now();
    stopped, turn := Fill(ledger, With, script, 0);
    next := turn;
    if !stopped {
      ghost var between := ledger.file.Now();
      OtherArmUnmoved(scenario, before, between, key, With, script, 0, turn);
      stopped, next := Fill(ledger, Without, script, turn);
      OtherArmUnmoved(scenario, between, ledger.file.Now(), key, Without, script, turn, next);
      if !stopped {
        NothingRemaining(ledger, With);
      }
    }
  }

  /** The record once both arms are full: closed, or as it was when that is not written. */
  ghost predicate ClosedOver(scenario: Scenario, key: Key, before: Disk, after: Disk, written: bool) {
    && |after.TakenUnder(key).withTrials| == Cut(scenario.trials, |before.RunsUnder(key)| + 1)
    && |after.TakenUnder(key).withoutTrials| == Cut(scenario.trials, |before.RunsUnder(key)| + 1)
    && if written then
         after.IsOf(key) && after.document.value.pending.None? && |after.RunsUnder(key)| == |before.RunsUnder(key)| + 1
       else after.RunsUnder(key) == before.RunsUnder(key)
  }

  method CloseFull(ledger: Ledger, writes: bool)
    requires UnderWay(ledger) && ledger.Remaining(With) == 0 && ledger.Remaining(Without) == 0
    requires IsSequential(ledger.scenario.judge)
    modifies ledger, ledger.file
    ensures ledger.file.Valid(ledger.scenario, ledger.key)
    ensures ledger.file.TakenUnder(ledger.key) == old(ledger.file.TakenUnder(ledger.key))
    ensures ClosedOver(ledger.scenario, ledger.key, old(ledger.file.Now()), ledger.file.Now(), writes)
  {
    NothingRemaining(ledger, With);
    NothingRemaining(ledger, Without);
    var ok := ledger.Close(writes);
  }

  /** What one run does to the record: it adds what the attempts it reached left, the with arm's and then
      the without arm's. A decided record refuses it; one that stops does so behind an attempt that does
      not go on; one that closes has filled both arms and, if that is written, closed one more run. */
  ghost predicate Ran(scenario: Scenario, key: Key, before: Disk, script: Script, turn: nat, next: nat, ended: Ended, after: Disk) {
    && turn <= next <= |script.attempts|
    && after.TakenUnder(key) == PlusRun(before.TakenUnder(key), key, script.attempts, turn, next)
    && (ended == Refused <==> before.Decided(key))
    && match ended
       case Refused => after == before && next == 0
       case Stopped =>
         after.RunsUnder(key) == before.RunsUnder(key) && StoppedAt(scenario, key, before, script.attempts, turn, next, after)
       case Closed =>
         && WentOn(key, With, script.attempts, 0, turn) && WentOn(key, Without, script.attempts, turn, next)
         && ClosedOver(scenario, key, before, after, script.closeWrites)
  }

  lemma SameRunsSameClose(scenario: Scenario, key: Key, before: Disk, filled: Disk, after: Disk, written: bool)
    requires filled.RunsUnder(key) == before.RunsUnder(key) && ClosedOver(scenario, key, filled, after, written)
    ensures ClosedOver(scenario, key, before, after, written)
  {
  }

  /** One call of `evaluate`. */
  method Evaluate(scenario: Scenario, key: Key, file: RecordFile, script: Script) returns (ended: Ended, turn: nat, next: nat)
    requires file.Valid(scenario, key) && IsSequential(scenario.judge)
    modifies file
    ensures file.Valid(scenario, key)
    ensures Ran(scenario, key, old(file.Now()), script, turn, next, ended, file.Now())
  {
    turn, next := 0, 0;
    var found := Ledger.Open(scenario, key, file);
    if found.AlreadyDecided? {
      return Refused, 0, 0;
    }
    var ledger := found.ledger;
    ghost var before := file.Now();
    var stopped;
    stopped, turn, next := FillBoth(ledger, script.attempts);
    if stopped {
      return Stopped, turn, next;
    }
    ghost var filled := file.Now();
    CloseFull(ledger, script.closeWrites);
    SameRunsSameClose(scenario, key, before, filled, file.Now(), script.closeWrites);
    ended := Closed;
  }

  /** Any sequence of runs under one key, each ending wherever it does: the record stays sound, and each
      run does to it what one run does, so that nothing taken is dropped or taken twice. */
  method EvaluateAgain(scenario: Scenario, key: Key, file: RecordFile, scripts: seq<Script>)
    returns (ends: seq<Ended>, stops: seq<(nat, nat)>, ghost trace: seq<Disk>)
    requires file.Valid(scenario, key) && IsSequential(scenario.judge)
    modifies file
    ensures file.Valid(scenario, key)
    ensures |ends| == |stops| == |scripts| && |trace| == |scripts| + 1
    ensures trace[0] == old(file.Now()) && trace[|scripts|] == file.Now()
    ensures forall i :: 0 <= i < |scripts| ==>
              Ran(scenario, key, trace[i], scripts[i], stops[i].0, stops[i].1, ends[i], trace[i + 1])
  {
    ends, stops, trace := [], [], [file.Now()];
    for n := 0 to |scripts|
      invariant |ends| == |stops| == n && |trace| == n + 1
      invariant file.Valid(scenario, key)
      invariant trace[0] == old(file.Now()) && trace[n] == file.Now()
      invariant forall i :: 0 <= i < n ==>
                  Ran(scenario, key, trace[i], scripts[i], stops[i].0, stops[i].1, ends[i], trace[i + 1])
    {
      var ended, turn, next := Evaluate(scenario, key, file, scripts[n]);
      ends, stops, trace := ends + [ended], stops + [(turn, next)], trace + [file.Now()];
    }
  }

  // ---- what a sound record means -----------------------------------------------------------

  /** Two records without an open run that took the same trials are the same record: being stopped and
      resumed leaves no trace in what was counted. */
  lemma ResumedIsUninterrupted(scenario: Scenario, a: Document, b: Document, taken: Taken)
    requires scenario.trials > 0
    requires SoundDocument(scenario, a, taken) && SoundDocument(scenario, b, taken)
    requires a.pending.None? && b.pending.None?
    ensures a.runs == b.runs && a.verdict == b.verdict
  {
    CutIsProduct(scenario.trials, |a.runs|);
    CutIsProduct(scenario.trials, |b.runs|);
    SameCount(scenario.trials, |a.runs|, |b.runs|);
  }

  lemma SameCount(trials: nat, m: nat, n: nat)
    requires trials > 0 && trials * m == trials * n
    ensures m == n
  {
    assert trials * (m - n) == 0;
  }

  lemma {:induction false} RunCounts(trials: nat, taken: Taken, n: nat, i: nat)
    requires i < n && Cut(trials, n) <= |taken.withTrials| && Cut(trials, n) <= |taken.withoutTrials|
    ensures Cut(trials, i) <= Cut(trials, i + 1) <= Cut(trials, n)
    ensures RunsOf(trials, taken, n)[i] ==
              Run(trials, Passes(taken.withTrials[Cut(trials, i)..Cut(trials, i + 1)]),
                          Passes(taken.withoutTrials[Cut(trials, i)..Cut(trials, i + 1)]))
  {
    if i < n - 1 {
      RunCounts(trials, taken, n - 1, i);
    }
  }

  /** A closed run counts its own stretch of what was taken: exactly `trials` of each arm, and each
      trial in the one run it fell in. */
  lemma EachRunCountsItsOwnTrials(scenario: Scenario, document: Document, taken: Taken, i: nat)
    requires SoundDocument(scenario, document, taken) && i < |document.runs|
    ensures scenario.trials * (i + 1) <= |taken.withTrials| && scenario.trials * (i + 1) <= |taken.withoutTrials|
    ensures scenario.trials * i <= scenario.trials * (i + 1)
    ensures document.runs[i] == Run(scenario.trials, Passes(taken.withTrials[scenario.trials * i..scenario.trials * (i + 1)]),
                                            Passes(taken.withoutTrials[scenario.trials * i..scenario.trials * (i + 1)]))
  {
    RunCounts(scenario.trials, taken, |document.runs|, i);
    CutIsProduct(scenario.trials, i);
    CutIsProduct(scenario.trials, i + 1);
  }

  /** A run is open only while the verdict is, and the verdict is never open after the last look. */
  lemma OpenOnlyWhileUndecided(scenario: Scenario, document: Document, taken: Taken)
    requires SoundDocument(scenario, document, taken) && IsSequential(scenario.judge)
    ensures |document.runs| <= 2
    ensures document.pending.Some? ==> document.verdict == Undecided && |document.runs| < 2
    ensures |document.runs| == 2 ==> document.verdict != Undecided
  {
    if document.verdict == Undecided {
      UndecidedMeansAnotherLook(scenario, document.runs, document.pending, taken);
    }
  }

  // ---- the verdict ---------------------------------------------------------------------------

  lemma PassesOfStretch(a: seq<bool>, start: nat, end: nat)
    requires start <= end <= |a|
    ensures Passes(a[..end]) == Passes(a[..start]) + Passes(a[start..end])
  {
    PassesJoin(a[..start], a[start..end]);
    assert a[..end] == a[..start] + a[start..end];
  }

  lemma {:induction false} TotalIsPooled(trials: nat, taken: Taken, n: nat)
    requires Cut(trials, n) <= |taken.withTrials| && Cut(trials, n) <= |taken.withoutTrials|
    ensures Total(RunsOf(trials, taken, n)) ==
            Run(Cut(trials, n), Passes(taken.withTrials[..Cut(trials, n)]), Passes(taken.withoutTrials[..Cut(trials, n)]))
  {
    if n > 0 {
      var before, runs := RunsOf(trials, taken, n - 1), RunsOf(trials, taken, n);
      TotalIsPooled(trials, taken, n - 1);
      PassesOfStretch(taken.withTrials, Cut(trials, n - 1), Cut(trials, n));
      PassesOfStretch(taken.withoutTrials, Cut(trials, n - 1), Cut(trials, n));
      assert runs[..|runs| - 1] == before;
    }
  }

  /** The verdict recorded with the test it is kept for: open while no run is closed, and else that of one
      look over every trial the closed runs hold, pooled; so it is open no more once all looks are taken. */
  lemma VerdictIsPooled(scenario: Scenario, document: Document, taken: Taken)
    requires scenario.judge == VerdictOf && SoundDocument(scenario, document, taken)
    ensures var held := Cut(scenario.trials, |document.runs|);
            document.verdict ==
            if document.runs == [] then Undecided
            else Judge(Passes(taken.withTrials[..held]), Passes(taken.withoutTrials[..held]), held, |document.runs|).1
    ensures |document.runs| <= 2
    ensures |document.runs| == 2 ==> document.verdict != Undecided
  {
    TheTestIsSequential();
    OpenOnlyWhileUndecided(scenario, document, taken);
    TotalIsPooled(scenario.trials, taken, |document.runs|);
  }

  /** What the verdict is, in the test's own terms: at most 0.025, never failed without, another look left. */
  lemma VerdictExactly(runs: seq<Run>)
    requires runs != []
    ensures var total := Total(runs);
            var p := Fisher(total.withPassed, total.withoutPassed, total.trials);
            && (VerdictOf(runs) == Verdict.Holds <==> p <= 0.025)
            && (VerdictOf(runs) == NotReproduced <==> total.withoutPassed == total.trials)
            && (VerdictOf(runs) == Undecided <==> p > 0.025 && total.withoutPassed < total.trials && |runs| == 1)
            && (VerdictOf(runs) == DoesNotHold <==> p > 0.025 && total.withoutPassed < total.trials && |runs| >= 2)
  {
    var total := Total(runs);
    NotReproducedExactly(total.withPassed, total.withoutPassed, total.trials, |runs|);
  }
}
