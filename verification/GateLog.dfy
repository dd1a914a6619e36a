/** What the audit chain says about one gate, read backwards as the code does and forwards as it is
    meant (src/rein/approve.py). */
module GateLog {
  import opened Optional

  const MANDATE: string := "mandate"
  const ACCEPTANCE: string := "acceptance"

  datatype Event =
    | GateApproved(subjects: seq<string>, crossingDigest: string)
    | GateCarried(subjects: seq<string>, crossingDigest: string, carriedFrom: string)
    | GateRevised(subjects: seq<string>, targetGate: string, gatesReset: set<string>)
    | Other(kind: string, subjects: seq<string>)

  predicate About(subjects: seq<string>, gate: string) {
    |subjects| > 0 && subjects[0] == gate
  }

  // ---- forwards: a history ------------------------------------------------------------------

  /** Where a gate stands. Withdrawn: a roll back took the approval as a side effect, and no mandate
      approval has answered since. */
  datatype History = Idle | Confirmed(approval: string, digest: string) | Withdrawn(approval: string, digest: string)

  function Rolled(h: History): History {
    match h
    case Confirmed(approval, digest) => Withdrawn(approval, digest)
    case _ => Idle
  }

  function Step(h: History, event: Event, gate: string): History {
    match event
    case GateApproved(subjects, digest) =>
      if About(subjects, gate) then Confirmed(if |subjects| > 1 then subjects[1] else "", digest)
      else if About(subjects, MANDATE) && h.Withdrawn? then Idle
      else h
    case GateCarried(subjects, digest, carriedFrom) =>
      if About(subjects, gate) then Confirmed(carriedFrom, digest) else h
    case GateRevised(_, target, reset) =>
      if gate !in reset then h else if target == gate then Idle else Rolled(h)
    case Other(_, _) => h
  }

  function HistoryOf(log: seq<Event>, gate: string): History {
    if log == [] then Idle else Step(HistoryOf(log[..|log| - 1], gate), log[|log| - 1], gate)
  }

  /** What a mandate approval has to answer for the gate. */
  function Unanswered(h: History): Option<(string, string)> {
    match h
    case Withdrawn(approval, digest) => if approval != "" && digest != "" then Some((approval, digest)) else None
    case _ => None
  }

  // ---- backwards: `_withdrawn_approval` --------------------------------------------------------

  /** The backward walk finds exactly what the history holds. */
  method WithdrawnApproval(events: seq<Event>, gate: string) returns (found: Option<(string, string)>)
    ensures found == Unanswered(HistoryOf(events, gate))
  {
    var revised := false;
    var i := |events|;
    assert events[..i] == events;
    while i > 0
      invariant 0 <= i <= |events|
      invariant !revised ==> HistoryOf(events, gate) == HistoryOf(events[..i], gate)
      invariant revised ==> HistoryOf(events, gate) == Rolled(HistoryOf(events[..i], gate))
    {
      i := i - 1;
      var event := events[i];
      assert events[..i + 1][..i] == events[..i];
      if event.Other? {
        continue;
      }
      if event.GateApproved? && About(event.subjects, MANDATE) && !revised {
        return None;
      }
      if event.GateRevised? {
        if gate !in event.gatesReset {
          continue;
        }
      } else if !About(event.subjects, gate) {
        continue;
      }
      if !revised {
        if !event.GateRevised? || event.targetGate == gate {
          return None;
        }
        revised := true;
        continue;
      }
      var original;
      if event.GateApproved? {
        original := if |event.subjects| > 1 then event.subjects[1] else "";
      } else if event.GateCarried? {
        original := event.carriedFrom;
      } else {
        return None;
      }
      var digest := event.crossingDigest;
      return if original != "" && digest != "" then Some((original, digest)) else None;
    }
    return None;
  }

  // ---- what a history rests on -------------------------------------------------------------------

  lemma HistorySnoc(log: seq<Event>, event: Event, gate: string)
    ensures HistoryOf(log + [event], gate) == Step(HistoryOf(log, gate), event, gate)
  {
    assert (log + [event])[..|log|] == log;
  }

  /** A person approved this gate, under this id and over this digest, before the log's end. */
  predicate ApprovedByHand(log: seq<Event>, gate: string, approval: string, digest: string) {
    GateApproved([gate, approval], digest) in log
  }

  /** Every approval names its gate and id, and every carry repeats an earlier approval by hand. */
  predicate Vouched(log: seq<Event>) {
    forall i :: 0 <= i < |log| ==> VouchedAt(log, i)
  }

  predicate VouchedAt(log: seq<Event>, i: nat)
    requires i < |log|
  {
    match log[i]
    case GateApproved(subjects, _) => |subjects| == 2
    case GateCarried(subjects, digest, carriedFrom) =>
      |subjects| == 2 && ApprovedByHand(log[..i], subjects[0], carriedFrom, digest)
    case _ => true
  }

  lemma VouchedPrefix(log: seq<Event>, n: nat)
    requires Vouched(log) && n <= |log|
    ensures Vouched(log[..n])
  {
    forall i | 0 <= i < n ensures VouchedAt(log[..n], i) {
      assert VouchedAt(log, i);
      assert log[..n][..i] == log[..i];
    }
  }

  lemma VouchedSnoc(log: seq<Event>, event: Event)
    requires Vouched(log)
    requires event.GateApproved? ==> |event.subjects| == 2
    requires event.GateCarried? ==> |event.subjects| == 2 && ApprovedByHand(log, event.subjects[0], event.carriedFrom, event.crossingDigest)
    ensures Vouched(log + [event])
  {
    forall i | 0 <= i < |log| + 1 ensures VouchedAt(log + [event], i) {
      assert i < |log| ==> VouchedAt(log, i);
      assert (log + [event])[..i] == log[..i];
    }
  }

  /** Whatever stands confirmed or withdrawn, a person confirmed. */
  lemma {:induction false} HistoryIsVouched(log: seq<Event>, gate: string)
    requires Vouched(log)
    ensures !HistoryOf(log, gate).Idle? ==> ApprovedByHand(log, gate, HistoryOf(log, gate).approval, HistoryOf(log, gate).digest)
  {
    if log != [] {
      var before, last := log[..|log| - 1], log[|log| - 1];
      assert log == before + [last];
      VouchedPrefix(log, |log| - 1);
      HistoryIsVouched(before, gate);
      assert VouchedAt(log, |log| - 1);
      if last.GateApproved? && About(last.subjects, gate) {
        assert last.subjects == [gate, last.subjects[1]];
      }
    }
  }

  // ---- a withdrawal is answered once ---------------------------------------------------------------

  /** The carry at i answers a withdrawal that stood open when the mandate was approved at m, in the
      same transaction. */
  predicate Answers(log: seq<Event>, i: nat, m: nat)
    requires i < |log| && log[i].GateCarried? && |log[i].subjects| == 2
  {
    && m < i && log[m].GateApproved? && About(log[m].subjects, MANDATE)
    && HistoryOf(log[..m], log[i].subjects[0]) == Withdrawn(log[i].carriedFrom, log[i].crossingDigest)
    && forall k :: m < k < i ==> log[k].GateCarried? && !About(log[k].subjects, log[i].subjects[0])
  }

  /** Every carry answers something. */
  ghost predicate Answering(log: seq<Event>) {
    forall i :: 0 <= i < |log| && log[i].GateCarried? ==> AnsweringAt(log, i)
  }

  ghost predicate AnsweringAt(log: seq<Event>, i: nat)
    requires i < |log| && log[i].GateCarried?
  {
    |log[i].subjects| == 2 && exists m :: Answers(log, i, m)
  }

  predicate WithdrawsAt(log: seq<Event>, k: int, gate: string) {
    0 <= k < |log| && log[k].GateRevised? && gate in log[k].gatesReset && log[k].targetGate != gate
  }

  /** Between standing confirmed and standing withdrawn there is a roll back that withdrew. */
  lemma {:induction false} SomethingWithdrew(log: seq<Event>, gate: string, start: nat, end: nat) returns (k: nat)
    requires start <= end <= |log|
    requires HistoryOf(log[..start], gate).Confirmed? && HistoryOf(log[..end], gate).Withdrawn?
    ensures start <= k < end && WithdrawsAt(log, k, gate)
    decreases end
  {
    assert start < end;
    assert log[..end][..end - 1] == log[..end - 1];
    if HistoryOf(log[..end - 1], gate).Withdrawn? {
      k := SomethingWithdrew(log, gate, start, end - 1);
    } else {
      k := end - 1;
    }
  }

  /** Two carries of one gate have a roll back between them that withdrew it again: no withdrawal is
      answered twice. */
  lemma AnsweredAtMostOnce(log: seq<Event>, gate: string, i: nat, j: nat) returns (k: nat)
    requires Answering(log) && i < j < |log|
    requires log[i].GateCarried? && About(log[i].subjects, gate)
    requires log[j].GateCarried? && About(log[j].subjects, gate)
    ensures i < k < j && WithdrawsAt(log, k, gate)
  {
    assert AnsweringAt(log, i) && AnsweringAt(log, j);
    var m: nat :| Answers(log, j, m);
    assert m > i;
    assert log[..i + 1][..i] == log[..i];
    k := SomethingWithdrew(log, gate, i + 1, m);
  }

  /** What was withdrawn before a mandate approval waits no more, whatever follows: only a later roll
      back makes a gate wait again. */
  lemma {:induction false} AnsweredByMandate(log: seq<Event>, m: nat, gate: string)
    requires m < |log| && log[m].GateApproved? && About(log[m].subjects, MANDATE)
    requires forall k :: m < k < |log| ==> !WithdrawsAt(log, k, gate)
    ensures !HistoryOf(log, gate).Withdrawn? && Unanswered(HistoryOf(log, gate)) == None
  {
    var n := |log| - 1;
    if m < n {
      var before := log[..n];
      forall k | m < k < |before|
        ensures !WithdrawsAt(before, k, gate)
      {
        assert !WithdrawsAt(log, k, gate);
      }
      AnsweredByMandate(before, m, gate);
      assert !WithdrawsAt(log, n, gate);
    }
  }
}
