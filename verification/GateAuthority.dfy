/** The gates of a cycle, the approvals that open them, the roll backs that withdraw them, and the
    change requests that hold them shut (src/rein/approve.py, src/rein/change_request.py,
    src/rein/revise.py). Each verb is one transaction; two of them act on what an earlier reading showed. */
module GateAuthority {
  import opened Optional
  import opened GateLog

  datatype Gate = Pending | Approved(approvalId: string, crossingDigest: string, carriedFrom: string)

  datatype Standing = Open | Addressed | Resolved

  datatype Request = Request(id: string, gate: string, target: string, reason: string, standing: Standing, note: string)

  /** What a mandate freezes: the tasks it declares irreversible, and what approving each authorizes. */
  datatype Plan = Plan(crossings: seq<string>, digests: map<string, string>) {
    predicate Valid() {
      && (forall i, j :: 0 <= i < j < |crossings| ==> crossings[i] != crossings[j])
      && MANDATE !in crossings && ACCEPTANCE !in crossings
    }

    function Digest(task: string): string {
      if task in digests then digests[task] else ""
    }
  }

  datatype State = State(gates: map<string, Gate>, requests: seq<Request>, log: seq<Event>, frozen: Option<Plan>)

  const INITIAL: State := State(map[MANDATE := Pending, ACCEPTANCE := Pending], [], [], None)

  // ---- the fan of gates ------------------------------------------------------------------------

  const ENDS: set<string> := {MANDATE, ACCEPTANCE}

  predicate IsApproved(gates: map<string, Gate>, gate: string) {
    gate in gates && gates[gate].Approved?
  }

  function UpstreamOf(gates: map<string, Gate>, gate: string): set<string> {
    if gate == MANDATE then {}
    else if gate == ACCEPTANCE then gates.Keys - {ACCEPTANCE} + {MANDATE}
    else {MANDATE}
  }

  predicate PendingUpstream(gates: map<string, Gate>, gate: string) {
    exists up :: up in UpstreamOf(gates, gate) && !IsApproved(gates, up)
  }

  // ---- approving ---------------------------------------------------------------------------------

  predicate OpenAgainst(requests: seq<Request>, gates: set<string>) {
    exists i :: 0 <= i < |requests| && requests[i].gate in gates && requests[i].standing == Open
  }

  function CrossingSet(plan: Plan): set<string> {
    set t | t in plan.crossings
  }

  /** The crossing gates a mandate approval over the plan removes. */
  function DroppedBy(gates: map<string, Gate>, plan: Plan): set<string> {
    gates.Keys - ENDS - CrossingSet(plan)
  }

  /** The gates whose requests an approval answers for. */
  function Answerable(gates: map<string, Gate>, gate: string, plan: Plan): set<string> {
    {gate} + if gate == MANDATE then DroppedBy(gates, plan) else {}
  }

  predicate MayApprove(s: State, gate: string, plan: Plan) {
    && gate in s.gates
    && !PendingUpstream(s.gates, gate)
    && !IsApproved(s.gates, gate)
    && !OpenAgainst(s.requests, Answerable(s.gates, gate, plan))
  }

  /** The approval that a mandate approval over the plan carries back to a crossing. */
  function Carry(log: seq<Event>, plan: Plan, task: string): Option<(string, string)> {
    var withdrawn := Unanswered(HistoryOf(log, task));
    if withdrawn.Some? && withdrawn.value.1 == plan.Digest(task) then withdrawn else None
  }

  /** Every crossing carried back: the approval carried, and the digest it was confirmed over. */
  function Carried(log: seq<Event>, plan: Plan): map<string, (string, string)> {
    map t | t in plan.crossings && Carry(log, plan, t).Some? :: Carry(log, plan, t).value
  }

  /** The events of the carries, in the plan's order, for the first n crossings. */
  function Carries(plan: Plan, carried: map<string, (string, string)>, n: nat, approvalId: string): seq<Event>
    requires n <= |plan.crossings|
  {
    if n == 0 then []
    else
      var task := plan.crossings[n - 1];
      Carries(plan, carried, n - 1, approvalId) +
      if task in carried then [GateCarried([task, approvalId], carried[task].1, carried[task].0)] else []
  }

  function ApprovalEvent(gate: string, plan: Plan, approvalId: string): Event {
    GateApproved([gate, approvalId], if gate in ENDS then "" else plan.Digest(gate))
  }

  function Resolve(request: Request, gates: set<string>): Request {
    if request.gate in gates && request.standing == Addressed then request.(standing := Resolved) else request
  }

  function ResolveAll(requests: seq<Request>, gates: set<string>): (closed: seq<Request>)
    ensures |closed| == |requests|
    ensures forall i :: 0 <= i < |requests| ==> closed[i] == Resolve(requests[i], gates)
  {
    if requests == [] then []
    else ResolveAll(requests[..|requests| - 1], gates) + [Resolve(requests[|requests| - 1], gates)]
  }

  function Reopened(approvalId: string, carried: (string, string)): Gate {
    Approved(approvalId, carried.1, carried.0)
  }

  /** The cycle's gates, recomputed from a plan: the two ends as they stand, and one for each crossing. */
  function Rederived(gates: map<string, Gate>, plan: Plan): map<string, Gate>
    requires ENDS <= gates.Keys
  {
    map g | g in ENDS + CrossingSet(plan) :: if g in ENDS then gates[g] else Pending
  }

  function AllReopened(gates: map<string, Gate>, carried: map<string, (string, string)>, approvalId: string): map<string, Gate> {
    map g | g in gates :: if g in carried then Reopened(approvalId, carried[g]) else gates[g]
  }

  function AfterApprove(s: State, gate: string, plan: Plan, approvalId: string): State
    requires ENDS <= s.gates.Keys
  {
    var event := ApprovalEvent(gate, plan, approvalId);
    var requests := ResolveAll(s.requests, Answerable(s.gates, gate, plan));
    if gate == MANDATE then
      var carried := Carried(s.log, plan);
      var approved := s.gates[MANDATE := Approved(approvalId, "", "")];
      State(AllReopened(Rederived(approved, plan), carried, approvalId), requests,
            s.log + [event] + Carries(plan, carried, |plan.crossings|, approvalId), Some(plan))
    else
      State(s.gates[gate := Approved(approvalId, event.crossingDigest, "")], requests, s.log + [event], s.frozen)
  }

  // ---- rolling back, and change requests -----------------------------------------------------------

  /** The approved gates at or downstream of the target. */
  function ToReset(gates: map<string, Gate>, target: string): set<string> {
    set g | g in gates && (g == target || target in UpstreamOf(gates, g)) && IsApproved(gates, g)
  }

  /** The gates as `revise` leaves them: each one on the list is pending, whether it was there or not. */
  function Reset(gates: map<string, Gate>, resets: set<string>): map<string, Gate> {
    map g | g in gates.Keys + resets :: if g in resets then Pending else gates[g]
  }

  /** A roll back worked out on one document, the one seen, and applied to another. */
  function AfterRollBackAsOf(seen: State, s: State, target: string, marked: seq<string>): State {
    var resets := ToReset(seen.gates, target);
    State(Reset(s.gates, resets), s.requests, s.log + [GateRevised(marked, target, resets)],
          if target == MANDATE && seen.frozen.Some? then None else s.frozen)
  }

  /** Worked out on the document it is applied to. */
  function AfterRollBack(s: State, target: string, marked: seq<string>): State {
    AfterRollBackAsOf(s, s, target, marked)
  }

  /** What `add` asks of its arguments, blanks stripped, and of the gate. */
  predicate MayAdd(gates: map<string, Gate>, gate: string, target: string, reason: string) {
    target != "" && reason != "" && gate in gates
  }

  function AfterAdd(s: State, gate: string, id: string, target: string, reason: string): State {
    s.(requests := s.requests + [Request(id, gate, target, reason, Open, "")],
       log := s.log + [Other("changes_requested", [gate, id, target])])
  }

  /** The first request of this id. */
  function Find(requests: seq<Request>, id: string): (found: Option<Request>)
    ensures found.Some? ==> found.value in requests && found.value.id == id
    ensures found.None? ==> forall r :: r in requests ==> r.id != id
  {
    if requests == [] then None
    else if requests[0].id == id then Some(requests[0])
    else Find(requests[1..], id)
  }

  function Answer(request: Request, id: string, note: string): Request {
    if request.id == id then request.(standing := Addressed, note := note) else request
  }

  function AnswerAll(requests: seq<Request>, id: string, note: string): (answered: seq<Request>)
    ensures |answered| == |requests|
    ensures forall i :: 0 <= i < |requests| ==> answered[i] == Answer(requests[i], id, note)
  {
    if requests == [] then []
    else AnswerAll(requests[..|requests| - 1], id, note) + [Answer(requests[|requests| - 1], id, note)]
  }

  predicate MayAddress(s: State, id: string, note: string) {
    note != "" && Find(s.requests, id).Some? && Find(s.requests, id).value.standing == Open
  }

  function AfterAddress(s: State, id: string, note: string): State
    requires MayAddress(s, id, note)
  {
    s.(requests := AnswerAll(s.requests, id, note),
       log := s.log + [Other("changes_addressed", [Find(s.requests, id).value.gate, id])])
  }

  /** Open again the crossings that this confirmation carries back. */
  method Reopen(gates: map<string, Gate>, plan: Plan, approvalId: string, carried: map<string, (string, string)>)
    returns (result: map<string, Gate>, events: seq<Event>)
    requires CrossingSet(plan) <= gates.Keys && carried.Keys <= CrossingSet(plan)
    ensures result == AllReopened(gates, carried, approvalId)
    ensures events == Carries(plan, carried, |plan.crossings|, approvalId)
  {
    result, events := gates, [];
    for i := 0 to |plan.crossings|
      invariant result.Keys == gates.Keys
      invariant forall g :: g in gates ==>
                  result[g] == if g in plan.crossings[..i] && g in carried then Reopened(approvalId, carried[g]) else gates[g]
      invariant events == Carries(plan, carried, i, approvalId)
    {
      var task := plan.crossings[i];
      assert task in CrossingSet(plan);
      assert plan.crossings[..i + 1] == plan.crossings[..i] + [task];
      if task in carried {
        result := result[task := Reopened(approvalId, carried[task])];
        events := events + [GateCarried([task, approvalId], carried[task].1, carried[task].0)];
      }
    }
    assert plan.crossings[..|plan.crossings|] == plan.crossings;
  }

  lemma ResetOneMore(gates: map<string, Gate>, done: set<string>, gate: string)
    ensures Reset(gates, done)[gate := Pending] == Reset(gates, done + {gate})
  {
  }

  /** Each gate on the list is set pending. */
  method ResetEach(gates: map<string, Gate>, resets: set<string>) returns (result: map<string, Gate>)
    ensures result == Reset(gates, resets)
  {
    result := gates;
    var left, done := resets, {};
    assert Reset(gates, done) == gates;
    while left != {}
      invariant done + left == resets && result == Reset(gates, done)
      decreases left
    {
      var gate :| gate in left;
      ResetOneMore(gates, done, gate);
      result := result[gate := Pending];
      left, done := left - {gate}, done + {gate};
    }
    assert done == resets;
  }

  /** The request of this id marked addressed, wherever it stands in the list. */
  method AnswerEach(requests: seq<Request>, id: string, note: string) returns (answered: seq<Request>)
    ensures answered == AnswerAll(requests, id, note)
  {
    answered := [];
    for i := 0 to |requests|
      invariant answered == AnswerAll(requests[..i], id, note)
    {
      var entry := requests[i];
      if entry.id == id {
        entry := entry.(standing := Addressed, note := note);
      }
      answered := answered + [entry];
      assert requests[..i + 1][..i] == requests[..i];
    }
    assert requests[..|requests|] == requests;
  }

  // ---- the document and the chain, edited in place ---------------------------------------------------

  class Cycle {
    var gates: map<string, Gate>
    var requests: seq<Request>
    var log: seq<Event>
    var frozen: Option<Plan>

    function Contents(): State
      reads this
    {
      State(gates, requests, log, frozen)
    }

    /** The document always holds the two ends. */
    predicate Valid()
      reads this
    {
      ENDS <= gates.Keys
    }

    constructor ()
      ensures Valid() && Contents() == INITIAL
    {
      gates, requests, log, frozen := INITIAL.gates, INITIAL.requests, INITIAL.log, INITIAL.frozen;
    }

    /** `carried_crossings`. */
    method CarriedCrossings(plan: Plan) returns (carried: map<string, (string, string)>)
      requires plan.Valid()
      ensures carried == Carried(log, plan)
    {
      carried := map[];
      for i := 0 to |plan.crossings|
        invariant carried.Keys == set t | t in plan.crossings[..i] && Carry(log, plan, t).Some?
        invariant forall t :: t in carried ==> Carry(log, plan, t) == Some(carried[t])
      {
        var task := plan.crossings[i];
        var withdrawn := WithdrawnApproval(log, task);
        if withdrawn.Some? && withdrawn.value.1 == plan.Digest(task) {
          carried := carried[task := withdrawn.value];
        }
        assert plan.crossings[..i + 1] == plan.crossings[..i] + [task];
      }
      assert plan.crossings[..|plan.crossings|] == plan.crossings;
    }

    /** `resolve_addressed`: close what the approval covered. */
    method ResolveAddressed(covered: set<string>) returns (closed: seq<string>)
      modifies this`requests
      ensures requests == ResolveAll(old(requests), covered)
      ensures forall id :: id in closed <==>
                exists i :: 0 <= i < |old(requests)| && old(requests)[i].id == id
                            && old(requests)[i].gate in covered && old(requests)[i].standing == Addressed
    {
      closed := [];
      for i := 0 to |requests|
        invariant |requests| == |old(requests)| && requests[i..] == old(requests)[i..]
        invariant requests[..i] == ResolveAll(old(requests)[..i], covered)
        invariant forall id :: id in closed <==>
                    exists k :: 0 <= k < i && old(requests)[k].id == id
                                && old(requests)[k].gate in covered && old(requests)[k].standing == Addressed
      {
        var entry := requests[i];
        assert entry == old(requests)[i..][0];
        if entry.gate in covered && entry.standing == Addressed {
          requests := requests[i := entry.(standing := Resolved)];
          closed := closed + [entry.id];
        }
        assert old(requests)[..i + 1][..i] == old(requests)[..i];
        assert requests[..i + 1] == requests[..i] + [Resolve(entry, covered)];
      }
      assert requests[..|requests|] == requests && old(requests)[..|requests|] == old(requests);
    }

    /** `record_approval`, behind `readiness`: `clear` is everything readiness asks that is not modelled. */
    method Approve(gate: string, plan: Plan, approvalId: string, clear: bool) returns (ok: bool)
      requires Valid() && plan.Valid()
      modifies this
      ensures Valid() && ok == (clear && MayApprove(old(Contents()), gate, plan))
      ensures Contents() == if ok then AfterApprove(old(Contents()), gate, plan, approvalId) else old(Contents())
    {
      if !clear || !MayApprove(Contents(), gate, plan) {
        return false;
      }
      var carried := map[];
      if gate == MANDATE {
        carried := CarriedCrossings(plan);
      }
      var event := ApprovalEvent(gate, plan, approvalId);
      log := log + [event];
      var _ := ResolveAddressed(Answerable(gates, gate, plan));
      gates := gates[gate := Approved(approvalId, event.crossingDigest, "")];
      if gate == MANDATE {
        var events;
        gates, events := Reopen(Rederived(gates, plan), plan, approvalId, carried);
        log, frozen := log + events, Some(plan);
      }
      ok := true;
    }

    /** `revise.apply`, of what `plan_revision` worked out on the document then seen. */
    method RollBack(seen: State, target: string, marked: seq<string>) returns (ok: bool)
      requires Valid()
      modifies this
      ensures Valid() && ok == (target in seen.gates)
      ensures Contents() == if ok then AfterRollBackAsOf(seen, old(Contents()), target, marked) else old(Contents())
    {
      if target !in seen.gates {
        return false;
      }
      var resets := ToReset(seen.gates, target);
      gates := ResetEach(gates, resets);
      log := log + [GateRevised(marked, target, resets)];
      if target == MANDATE && seen.frozen.Some? {
        frozen := None;
      }
      ok := true;
    }

    /** `change_request.add`: the gate is looked for in the document then seen. */
    method Add(seen: State, gate: string, id: string, target: string, reason: string) returns (ok: bool)
      requires Valid()
      modifies this
      ensures Valid() && ok == (target != "" && reason != "" && gate in seen.gates)
      ensures ok == MayAdd(seen.gates, gate, target, reason)
      ensures ok ==> requests == old(requests) + [Request(id, gate, target, reason, Open, "")]
      ensures Contents() == if ok then AfterAdd(old(Contents()), gate, id, target, reason) else old(Contents())
    {
      if target == "" || reason == "" || gate !in seen.gates {
        return false;
      }
      requests := requests + [Request(id, gate, target, reason, Open, "")];
      log := log + [Other("changes_requested", [gate, id, target])];
      ok := true;
    }

    /** `change_request.address`. */
    method Address(id: string, note: string) returns (ok: bool)
      requires Valid()
      modifies this
      ensures Valid() && ok == MayAddress(old(Contents()), id, note)
      ensures ok ==> note != "" && (exists i :: 0 <= i < |old(requests)| && old(requests)[i].id == id && old(requests)[i].standing == Open)
      ensures ok ==> |requests| == |old(requests)| && forall i :: 0 <= i < |requests| ==>
                requests[i] == if old(requests)[i].id == id then old(requests)[i].(standing := Addressed, note := note) else old(requests)[i]
      ensures Contents() == if ok then AfterAddress(old(Contents()), id, note) else old(Contents())
    {
      if note == "" {
        return false;
      }
      var existing := Find(requests, id);
      if existing.None? || existing.value.standing != Open {
        return false;
      }
      requests := AnswerEach(requests, id, note);
      log := log + [Other("changes_addressed", [existing.value.gate, id])];
      ok := true;
    }
  }
}
