/** What every run of approvals, roll backs and change requests keeps (src/rein/approve.py,
    src/rein/change_request.py, src/rein/revise.py). */
module GateRuns {
  import opened Optional
  import opened GateLog
  import opened GateAuthority

  datatype Verb =
    | Approve(gate: string, plan: Plan, approvalId: string, clear: bool)
    | RollBack(target: string, marked: seq<string>)
    | Add(gate: string, id: string, target: string, reason: string)
    | Address(id: string, note: string)
    | Note(kind: string, subjects: seq<string>)
  {
    /** Plans name no task twice, and a new request draws an id no other has. */
    predicate Valid(s: State) {
      match this
      case Approve(_, plan, _, _) => plan.Valid()
      case Add(_, id, _, _) => Find(s.requests, id).None?
      case _ => true
    }
  }

  function Next(s: State, verb: Verb): (next: State)
    requires ENDS <= s.gates.Keys
    ensures ENDS <= next.gates.Keys
  {
    match verb
    case Approve(gate, plan, approvalId, clear) =>
      if clear && MayApprove(s, gate, plan) then AfterApprove(s, gate, plan, approvalId) else s
    case RollBack(target, marked) => if target in s.gates then AfterRollBack(s, target, marked) else s
    case Add(gate, id, target, reason) => if MayAdd(s.gates, gate, target, reason) then AfterAdd(s, gate, id, target, reason) else s
    case Address(id, note) => if MayAddress(s, id, note) then AfterAddress(s, id, note) else s
    case Note(kind, subjects) => s.(log := s.log + [Other(kind, subjects)])
  }

  // ---- the invariant --------------------------------------------------------------------------

  /** No gate stands approved on one that is pending. */
  ghost predicate ChainHeld(gates: map<string, Gate>) {
    forall g :: IsApproved(gates, g) ==> !PendingUpstream(gates, g)
  }

  /** No unresolved request stands against a gate the cycle does not have. */
  predicate RequestsHeld(s: State) {
    forall i :: 0 <= i < |s.requests| && s.requests[i].standing != Resolved ==> s.requests[i].gate in s.gates
  }

  predicate DistinctIds(requests: seq<Request>) {
    forall i, j :: 0 <= i < j < |requests| ==> requests[i].id != requests[j].id
  }

  /** The approval by hand that opened the gate, directly or through a carry. */
  function Source(gate: Gate): string
    requires gate.Approved?
  {
    if gate.carriedFrom == "" then gate.approvalId else gate.carriedFrom
  }

  /** What the chain says of the gate is what the document says of it. */
  predicate TellsTheSame(s: State, gate: string) {
    var h := HistoryOf(s.log, gate);
    if IsApproved(s.gates, gate) then h == Confirmed(Source(s.gates[gate]), s.gates[gate].crossingDigest)
    else !h.Confirmed?
  }

  /** The plan is frozen while the mandate stands, and the gates are its two ends and its crossings. */
  predicate Frozen(s: State) {
    && (s.frozen.Some? <==> IsApproved(s.gates, MANDATE))
    && (s.frozen.Some? ==> s.gates.Keys == ENDS + CrossingSet(s.frozen.value))
  }

  /** A crossing waits for an answer only while the mandate is pending. */
  predicate WaitsForMandate(s: State, gate: string) {
    gate !in ENDS && HistoryOf(s.log, gate).Withdrawn? ==> !IsApproved(s.gates, MANDATE)
  }

  ghost predicate Sound(s: State) {
    && ENDS <= s.gates.Keys
    && ChainHeld(s.gates)
    && RequestsHeld(s) && DistinctIds(s.requests)
    && (forall g :: TellsTheSame(s, g))
    && (forall g :: WaitsForMandate(s, g))
    && Vouched(s.log)
    && Answering(s.log)
    && Frozen(s)
  }

  lemma InitialIsSound()
    ensures Sound(INITIAL)
  {
  }

  // ---- the chain of events -----------------------------------------------------------------------

  lemma AnsweringSnoc(log: seq<Event>, event: Event)
    requires Answering(log) && !event.GateCarried?
    ensures Answering(log + [event])
  {
    var longer := log + [event];
    forall i | 0 <= i < |longer| && longer[i].GateCarried? ensures AnsweringAt(longer, i) {
      assert AnsweringAt(log, i);
      AnsweringLonger(log, longer, i);
    }
  }

  lemma AnsweringLonger(log: seq<Event>, longer: seq<Event>, i: nat)
    requires log <= longer && i < |log| && log[i].GateCarried? && AnsweringAt(log, i)
    ensures AnsweringAt(longer, i)
  {
    var m: nat :| Answers(log, i, m);
    assert longer[..m] == log[..m];
    assert Answers(longer, i, m);
  }

  /** An event that is no carry leaves the chain as good as it was. */
  lemma ChainSnoc(log: seq<Event>, event: Event)
    requires Vouched(log) && Answering(log) && !event.GateCarried?
    requires event.GateApproved? ==> |event.subjects| == 2
    ensures Vouched(log + [event]) && Answering(log + [event])
  {
    VouchedSnoc(log, event);
    AnsweringSnoc(log, event);
  }

  lemma {:induction false} HistoryAfterCarries(log: seq<Event>, plan: Plan, carried: map<string, (string, string)>, n: nat, id: string, g: string)
    requires plan.Valid() && n <= |plan.crossings|
    ensures HistoryOf(log + Carries(plan, carried, n, id), g) ==
            if g in plan.crossings[..n] && g in carried then Confirmed(carried[g].0, carried[g].1) else HistoryOf(log, g)
  {
    if n == 0 {
      assert log + Carries(plan, carried, 0, id) == log;
    } else {
      var task, before := plan.crossings[n - 1], Carries(plan, carried, n - 1, id);
      HistoryAfterCarries(log, plan, carried, n - 1, id, g);
      assert plan.crossings[..n] == plan.crossings[..n - 1] + [task];
      if task in carried {
        var event := GateCarried([task, id], carried[task].1, carried[task].0);
        assert log + Carries(plan, carried, n, id) == log + before + [event];
        HistorySnoc(log + before, event, g);
      } else {
        assert Carries(plan, carried, n, id) == before;
      }
    }
  }

  lemma {:induction false} CarriesAreOfTheFirst(plan: Plan, carried: map<string, (string, string)>, n: nat, id: string, k: nat)
    requires plan.Valid() && n <= |plan.crossings| && k < |Carries(plan, carried, n, id)|
    ensures Carries(plan, carried, n, id)[k].GateCarried?
    ensures |Carries(plan, carried, n, id)[k].subjects| == 2
    ensures Carries(plan, carried, n, id)[k].subjects[0] in plan.crossings[..n]
  {
    if n > 0 {
      assert plan.crossings[..n] == plan.crossings[..n - 1] + [plan.crossings[n - 1]];
      if k < |Carries(plan, carried, n - 1, id)| {
        CarriesAreOfTheFirst(plan, carried, n - 1, id, k);
      }
    }
  }

  /** The carries of a mandate approval are vouched for, and each answers what was waiting. */
  lemma {:induction false} ChainAfterCarries(log: seq<Event>, event: Event, plan: Plan, n: nat, id: string)
    requires plan.Valid() && n <= |plan.crossings| && Vouched(log) && Answering(log)
    requires event == GateApproved([MANDATE, id], "")
    ensures Vouched(log + [event] + Carries(plan, Carried(log, plan), n, id))
    ensures Answering(log + [event] + Carries(plan, Carried(log, plan), n, id))
  {
    var carried := Carried(log, plan);
    ChainSnoc(log, event);
    if n == 0 {
      assert log + [event] + Carries(plan, carried, 0, id) == log + [event];
    } else {
      var task, before := plan.crossings[n - 1], log + [event] + Carries(plan, carried, n - 1, id);
      ChainAfterCarries(log, event, plan, n - 1, id);
      if task in carried {
        var carry := GateCarried([task, id], carried[task].1, carried[task].0);
        assert log + [event] + Carries(plan, carried, n, id) == before + [carry];
        OneMoreCarry(log, event, plan, n - 1, id);
      } else {
        assert log + [event] + Carries(plan, carried, n, id) == before;
      }
    }
  }

  lemma OneMoreCarry(log: seq<Event>, event: Event, plan: Plan, n: nat, id: string)
    requires plan.Valid() && n < |plan.crossings| && plan.crossings[n] in Carried(log, plan)
    requires event == GateApproved([MANDATE, id], "") && Vouched(log)
    requires Vouched(log + [event] + Carries(plan, Carried(log, plan), n, id))
    requires Answering(log + [event] + Carries(plan, Carried(log, plan), n, id))
    ensures var task := plan.crossings[n];
            var carry := GateCarried([task, id], Carried(log, plan)[task].1, Carried(log, plan)[task].0);
            var longer := log + [event] + Carries(plan, Carried(log, plan), n, id) + [carry];
            Vouched(longer) && Answering(longer)
  {
    var task, carried := plan.crossings[n], Carried(log, plan);
    var carry := GateCarried([task, id], carried[task].1, carried[task].0);
    var before := log + [event] + Carries(plan, carried, n, id);
    HistoryIsVouched(log, task);
    assert ApprovedByHand(before, task, carried[task].0, carried[task].1);
    VouchedSnoc(before, carry);
    var longer := before + [carry];
    forall i | 0 <= i < |longer| && longer[i].GateCarried? ensures AnsweringAt(longer, i) {
      if i < |before| {
        assert AnsweringAt(before, i);
        AnsweringLonger(before, longer, i);
      } else {
        assert longer[..|log|] == log;
        forall k | |log| < k < i ensures longer[k].GateCarried? && !About(longer[k].subjects, task) {
          CarriesAreOfTheFirst(plan, carried, n, id, k - |log| - 1);
          assert longer[k] == Carries(plan, carried, n, id)[k - |log| - 1];
        }
        assert Answers(longer, i, |log|);
      }
    }
  }

  // ---- each verb ----------------------------------------------------------------------------------

  lemma ApprovingACrossingOrTheEnd(s: State, gate: string, plan: Plan, id: string)
    requires Sound(s) && MayApprove(s, gate, plan) && gate != MANDATE
    ensures Sound(AfterApprove(s, gate, plan, id))
  {
    var event := ApprovalEvent(gate, plan, id);
    var after := AfterApprove(s, gate, plan, id);
    ChainSnoc(s.log, event);
    forall g ensures TellsTheSame(after, g) && WaitsForMandate(after, g) {
      HistorySnoc(s.log, event, g);
      assert TellsTheSame(s, g) && WaitsForMandate(s, g);
    }
    assert MANDATE in UpstreamOf(s.gates, gate);
    assert IsApproved(s.gates, MANDATE);
    forall g | IsApproved(after.gates, g) ensures !PendingUpstream(after.gates, g) {
      assert !PendingUpstream(s.gates, g);
      forall up | up in UpstreamOf(after.gates, g) ensures IsApproved(after.gates, up) {
        assert up in UpstreamOf(s.gates, g);
      }
    }
    assert after.gates.Keys == s.gates.Keys;
  }

  lemma MandateGates(s: State, plan: Plan, id: string)
    requires Sound(s) && plan.Valid() && MayApprove(s, MANDATE, plan)
    ensures var after := AfterApprove(s, MANDATE, plan, id);
            && after.gates.Keys == ENDS + CrossingSet(plan)
            && after.gates[MANDATE] == Approved(id, "", "")
            && after.gates[ACCEPTANCE] == Pending
            && (forall g :: g in plan.crossings ==>
                  after.gates[g] == match Carry(s.log, plan, g) case None => Pending case Some(c) => Reopened(id, c))
  {
    assert IsApproved(s.gates, ACCEPTANCE) ==> !PendingUpstream(s.gates, ACCEPTANCE);
    assert MANDATE in UpstreamOf(s.gates, ACCEPTANCE);
    assert forall g :: g in plan.crossings ==> g !in ENDS;
  }

  lemma MandateTellsTheSame(s: State, plan: Plan, id: string, g: string)
    requires Sound(s) && plan.Valid() && MayApprove(s, MANDATE, plan)
    ensures TellsTheSame(AfterApprove(s, MANDATE, plan, id), g)
    ensures WaitsForMandate(AfterApprove(s, MANDATE, plan, id), g)
  {
    var event, carried := ApprovalEvent(MANDATE, plan, id), Carried(s.log, plan);
    MandateGates(s, plan, id);
    HistorySnoc(s.log, event, g);
    HistoryAfterCarries(s.log + [event], plan, carried, |plan.crossings|, id, g);
    assert plan.crossings[..|plan.crossings|] == plan.crossings;
    assert TellsTheSame(s, g);
    if g !in ENDS && g in s.gates {
      assert IsApproved(s.gates, g) ==> !PendingUpstream(s.gates, g);
      assert MANDATE in UpstreamOf(s.gates, g);
    }
  }

  /** A mandate approval leaves exactly its two ends and its plan's crossings as gates, and every
      request that stood against a gate it removes is answered. */
  lemma ApprovingTheMandate(s: State, plan: Plan, id: string)
    requires Sound(s) && plan.Valid() && MayApprove(s, MANDATE, plan)
    ensures Sound(AfterApprove(s, MANDATE, plan, id))
  {
    var after := AfterApprove(s, MANDATE, plan, id);
    MandateGates(s, plan, id);
    ChainAfterCarries(s.log, ApprovalEvent(MANDATE, plan, id), plan, |plan.crossings|, id);
    forall g ensures TellsTheSame(after, g) && WaitsForMandate(after, g) {
      MandateTellsTheSame(s, plan, id, g);
    }
    forall i | 0 <= i < |after.requests| && after.requests[i].standing != Resolved
      ensures after.requests[i].gate in after.gates
    {
      assert after.requests[i] == Resolve(s.requests[i], Answerable(s.gates, MANDATE, plan));
    }
  }

  lemma UpstreamIsTransitive(gates: map<string, Gate>, g: string, up: string, target: string)
    requires up in UpstreamOf(gates, g) && target in UpstreamOf(gates, up)
    ensures target in UpstreamOf(gates, g)
  {
  }

  lemma RollingBackKeepsTheChain(s: State, target: string, marked: seq<string>)
    requires Sound(s) && target in s.gates
    ensures ChainHeld(AfterRollBack(s, target, marked).gates)
  {
    var after := AfterRollBack(s, target, marked);
    forall g | IsApproved(after.gates, g) ensures !PendingUpstream(after.gates, g) {
      assert !PendingUpstream(s.gates, g);
      forall up | up in UpstreamOf(after.gates, g) ensures IsApproved(after.gates, up) {
        assert up in UpstreamOf(s.gates, g);
        assert IsApproved(s.gates, up);
        if target in UpstreamOf(s.gates, up) {
          UpstreamIsTransitive(s.gates, g, up, target);
        }
      }
    }
  }

  lemma RollingBack(s: State, target: string, marked: seq<string>)
    requires Sound(s) && target in s.gates
    ensures Sound(AfterRollBack(s, target, marked))
  {
    var after := AfterRollBack(s, target, marked);
    var event := GateRevised(marked, target, ToReset(s.gates, target));
    RollingBackKeepsTheChain(s, target, marked);
    ChainSnoc(s.log, event);
    forall g ensures TellsTheSame(after, g) && WaitsForMandate(after, g) {
      HistorySnoc(s.log, event, g);
      assert TellsTheSame(s, g) && WaitsForMandate(s, g);
    }
    assert after.gates.Keys == s.gates.Keys;
  }

  lemma JustAnEvent(s: State, requests: seq<Request>, kind: string, subjects: seq<string>)
    requires Sound(s) && RequestsHeld(s.(requests := requests)) && DistinctIds(requests)
    ensures Sound(s.(requests := requests, log := s.log + [Other(kind, subjects)]))
  {
    var event := Other(kind, subjects);
    var after := s.(requests := requests, log := s.log + [event]);
    ChainSnoc(s.log, event);
    forall g ensures TellsTheSame(after, g) && WaitsForMandate(after, g) {
      HistorySnoc(s.log, event, g);
      assert TellsTheSame(s, g) && WaitsForMandate(s, g);
    }
  }

  lemma AnsweringHolds(s: State, id: string, note: string)
    requires Sound(s) && MayAddress(s, id, note)
    ensures RequestsHeld(s.(requests := AnswerAll(s.requests, id, note))) && DistinctIds(AnswerAll(s.requests, id, note))
  {
    var answered := AnswerAll(s.requests, id, note);
    var found := Find(s.requests, id).value;
    forall i | 0 <= i < |answered| && answered[i].standing != Resolved ensures answered[i].gate in s.gates {
      assert answered[i] == Answer(s.requests[i], id, note);
      if s.requests[i].id == id {
        assert s.requests[i] == found;
      }
    }
  }

  lemma NextIsSound(s: State, verb: Verb)
    requires Sound(s) && verb.Valid(s)
    ensures Sound(Next(s, verb))
  {
    match verb
    case Approve(gate, plan, id, clear) =>
      if clear && MayApprove(s, gate, plan) {
        if gate == MANDATE {
          ApprovingTheMandate(s, plan, id);
        } else {
          ApprovingACrossingOrTheEnd(s, gate, plan, id);
        }
      }
    case RollBack(target, marked) =>
      if target in s.gates {
        RollingBack(s, target, marked);
      }
    case Add(gate, id, target, reason) =>
      if gate in s.gates {
        JustAnEvent(s, s.requests + [Request(id, gate, target, reason, Open, "")], "changes_requested", [gate, id, target]);
      }
    case Address(id, note) =>
      if MayAddress(s, id, note) {
        var answered := AnswerAll(s.requests, id, note);
        AnsweringHolds(s, id, note);
        JustAnEvent(s, answered, "changes_addressed", [Find(s.requests, id).value.gate, id]);
      }
    case Note(kind, subjects) =>
      JustAnEvent(s, s.requests, kind, subjects);
  }

  // ---- every run -------------------------------------------------------------------------------------

  /** Where a run leads; a verb that is not well formed changes nothing. */
  ghost function RunOf(verbs: seq<Verb>): (s: State)
    ensures ENDS <= s.gates.Keys
  {
    if verbs == [] then INITIAL
    else
      var before, last := RunOf(verbs[..|verbs| - 1]), verbs[|verbs| - 1];
      if last.Valid(before) then Next(before, last) else before
  }

  /** Every state a run reaches is sound. */
  lemma {:induction false} EveryRunIsSound(verbs: seq<Verb>)
    ensures Sound(RunOf(verbs))
  {
    if verbs == [] {
      InitialIsSound();
    } else {
      var before, last := RunOf(verbs[..|verbs| - 1]), verbs[|verbs| - 1];
      EveryRunIsSound(verbs[..|verbs| - 1]);
      if last.Valid(before) {
        NextIsSound(before, last);
      }
    }
  }

  // ---- what soundness gives -----------------------------------------------------------------------------

  /** No gate stands approved while one it rests on is pending, the mandate leaves exactly its gates,
      and every request that is not resolved holds a gate that exists. */
  lemma AuthorityHolds(verbs: seq<Verb>, s: State)
    requires s == RunOf(verbs)
    ensures forall g :: IsApproved(s.gates, g) ==> !PendingUpstream(s.gates, g)
    ensures forall g :: IsApproved(s.gates, g) ==> IsApproved(s.gates, MANDATE)
    ensures IsApproved(s.gates, ACCEPTANCE) ==> forall g :: g in s.gates ==> IsApproved(s.gates, g)
    ensures IsApproved(s.gates, MANDATE) ==> s.frozen.Some? && s.gates.Keys == ENDS + CrossingSet(s.frozen.value)
    ensures forall i :: 0 <= i < |s.requests| && s.requests[i].standing != Resolved ==> s.requests[i].gate in s.gates
  {
    EveryRunIsSound(verbs);
    assert IsApproved(s.gates, ACCEPTANCE) ==> !PendingUpstream(s.gates, ACCEPTANCE);
    forall g | IsApproved(s.gates, g) ensures IsApproved(s.gates, MANDATE) {
      assert !PendingUpstream(s.gates, g);
      assert g != MANDATE ==> MANDATE in UpstreamOf(s.gates, g);
    }
    forall g | IsApproved(s.gates, ACCEPTANCE) && g in s.gates ensures IsApproved(s.gates, g) {
      assert g != ACCEPTANCE ==> g in UpstreamOf(s.gates, ACCEPTANCE);
    }
  }

  // ---- what one verb does -------------------------------------------------------------------------------

  /** The gate stands behind no other: the mandate needs none, a crossing the mandate, the acceptance all. */
  predicate Behind(gates: map<string, Gate>, gate: string) {
    && (gate != MANDATE ==> IsApproved(gates, MANDATE))
    && (gate == ACCEPTANCE ==> forall g :: g in gates && g != ACCEPTANCE ==> IsApproved(gates, g))
  }

  /** An approval of the gate answers for requests against it, and one of the mandate for those against
      crossings that the plan no longer has. */
  predicate AnswersFor(s: State, gate: string, plan: Plan, request: Request) {
    || request.gate == gate
    || (gate == MANDATE && request.gate in s.gates && request.gate !in {MANDATE, ACCEPTANCE} && request.gate !in plan.crossings)
  }

  /** An approval is recorded exactly when the gate is there and pending, what it stands behind is approved,
      no request it answers for is open, and everything else is clear; else nothing changes. */
  lemma ApprovedExactly(s: State, gate: string, plan: Plan, id: string, clear: bool)
    requires ENDS <= s.gates.Keys
    ensures Next(s, Approve(gate, plan, id, clear)) != s <==>
              && clear && gate in s.gates && s.gates[gate].Pending? && Behind(s.gates, gate)
              && forall r :: r in s.requests && AnswersFor(s, gate, plan, r) ==> r.standing != Open
  {
    UpstreamExactly(s.gates, gate);
    OpenExactly(s, gate, plan);
    if MayApprove(s, gate, plan) {
      var after := AfterApprove(s, gate, plan, id);
      assert |after.log| > |s.log|;
    }
  }

  lemma UpstreamExactly(gates: map<string, Gate>, gate: string)
    ensures PendingUpstream(gates, gate) <==> !Behind(gates, gate)
  {
    if !Behind(gates, gate) {
      if gate != MANDATE && !IsApproved(gates, MANDATE) {
        assert MANDATE in UpstreamOf(gates, gate);
      } else {
        var g :| g in gates && g != ACCEPTANCE && !IsApproved(gates, g);
        assert g in UpstreamOf(gates, gate);
      }
    }
  }

  lemma OpenExactly(s: State, gate: string, plan: Plan)
    ensures OpenAgainst(s.requests, Answerable(s.gates, gate, plan))
            <==> exists r :: r in s.requests && AnswersFor(s, gate, plan, r) && r.standing == Open
  {
    if r :| r in s.requests && AnswersFor(s, gate, plan, r) && r.standing == Open {
      var i :| 0 <= i < |s.requests| && s.requests[i] == r;
      assert s.requests[i].gate in Answerable(s.gates, gate, plan);
    }
    if i :| 0 <= i < |s.requests| && s.requests[i].gate in Answerable(s.gates, gate, plan) && s.requests[i].standing == Open {
      assert s.requests[i] in s.requests && AnswersFor(s, gate, plan, s.requests[i]);
    }
  }

  /** So an open request holds its own gate shut, and the mandate while its crossing is given up. */
  lemma OpenHoldsShut(s: State, gate: string, plan: Plan, id: string, clear: bool, r: Request)
    requires ENDS <= s.gates.Keys && r in s.requests && r.standing == Open && AnswersFor(s, gate, plan, r)
    ensures Next(s, Approve(gate, plan, id, clear)) == s
  {
    ApprovedExactly(s, gate, plan, id, clear);
  }

  /** What an approval resolves: the addressed requests it answers for, and nothing else. */
  lemma WhatApprovalResolves(s: State, gate: string, plan: Plan, id: string, clear: bool)
    requires ENDS <= s.gates.Keys && Next(s, Approve(gate, plan, id, clear)) != s
    ensures var before, after := s.requests, Next(s, Approve(gate, plan, id, clear)).requests;
            && |after| == |before|
            && forall i :: 0 <= i < |before| ==>
                 after[i] == if before[i].standing == Addressed && AnswersFor(s, gate, plan, before[i])
                             then before[i].(standing := Resolved) else before[i]
  {
    var before, covered := s.requests, Answerable(s.gates, gate, plan);
    forall i | 0 <= i < |before| ensures before[i].gate in covered <==> AnswersFor(s, gate, plan, before[i]) {
    }
  }

  /** What an approval of a crossing or of the acceptance records: the id, and for a crossing the digest the
      plan has for it; that gate alone changes, and the chain says the same. */
  lemma WhatApprovalRecords(s: State, gate: string, plan: Plan, id: string, clear: bool)
    requires ENDS <= s.gates.Keys && gate != MANDATE && Next(s, Approve(gate, plan, id, clear)) != s
    ensures var after := Next(s, Approve(gate, plan, id, clear));
            var digest := if gate == ACCEPTANCE || gate !in plan.digests then "" else plan.digests[gate];
            && after.gates == s.gates[gate := Approved(id, digest, "")]
            && after.log == s.log + [GateApproved([gate, id], digest)]
            && after.frozen == s.frozen
  {
  }

  /** What a roll back leaves: the target pending, everything if that is the mandate, and the acceptance in
      any case; every other gate as it was. */
  lemma WhatIsRolledBack(s: State, target: string, marked: seq<string>)
    requires ENDS <= s.gates.Keys && target in s.gates
    ensures var after := Next(s, RollBack(target, marked));
            && after.gates.Keys == s.gates.Keys && after.requests == s.requests
            && (forall g :: g in s.gates ==>
                  after.gates[g] == if g == target || target == MANDATE || g == ACCEPTANCE then Pending else s.gates[g])
            && (exists resets :: after.log == s.log + [GateRevised(marked, target, resets)]
                                 && forall g :: g in resets <==> g in s.gates && s.gates[g].Approved? && after.gates[g].Pending?)
            && after.frozen == if target == MANDATE then None else s.frozen
  {
    var resets := ToReset(s.gates, target);
    assert forall g :: g in s.gates && (g == target || target == MANDATE || g == ACCEPTANCE) <==> g in s.gates && (g == target || target in UpstreamOf(s.gates, g));
    assert Next(s, RollBack(target, marked)).log == s.log + [GateRevised(marked, target, resets)];
  }

  /** Every carry names the id and the digest of an earlier approval of the same gate by hand, and what
      was withdrawn once is carried once. */
  lemma CarriesAreVouchedFor(verbs: seq<Verb>, s: State, i: nat) returns (j: nat)
    requires s == RunOf(verbs) && i < |s.log| && s.log[i].GateCarried?
    ensures j < i && |s.log[i].subjects| == 2
    ensures s.log[j] == GateApproved([s.log[i].subjects[0], s.log[i].carriedFrom], s.log[i].crossingDigest)
    ensures forall h: nat :: h < i && s.log[h].GateCarried? && About(s.log[h].subjects, s.log[i].subjects[0]) ==>
              exists k :: h < k < i && WithdrawsAt(s.log, k, s.log[i].subjects[0])
  {
    EveryRunIsSound(verbs);
    assert VouchedAt(s.log, i);
    var gate := s.log[i].subjects[0];
    j :| 0 <= j < i && s.log[..i][j] == GateApproved([gate, s.log[i].carriedFrom], s.log[i].crossingDigest);
    forall h: nat | h < i && s.log[h].GateCarried? && About(s.log[h].subjects, gate)
      ensures exists k :: h < k < i && WithdrawsAt(s.log, k, gate)
    {
      var k := AnsweredAtMostOnce(s.log, gate, h, i);
    }
  }

  /** The document never claims an approval the chain does not show, and never hides one. */
  lemma DocumentMatchesChain(verbs: seq<Verb>, s: State, gate: string)
    requires s == RunOf(verbs)
    ensures IsApproved(s.gates, gate) <==> HistoryOf(s.log, gate).Confirmed?
    ensures IsApproved(s.gates, gate) ==>
              ApprovedByHand(s.log, gate, Source(s.gates[gate]), s.gates[gate].crossingDigest)
  {
    EveryRunIsSound(verbs);
    assert TellsTheSame(s, gate);
    HistoryIsVouched(s.log, gate);
  }

  /** The plan authorizes for the crossing what was confirmed, and the receipt says what that was. */
  predicate Unmoved(gate: Gate, plan: Plan, task: string)
    requires gate.Approved?
  {
    plan.Digest(task) == gate.crossingDigest && gate.crossingDigest != "" && Source(gate) != ""
  }

  /** What a mandate approval would carry to a crossing withdrawn with the mandate. */
  lemma CarryOfWithdrawn(s: State, marked: seq<string>, plan: Plan, gate: string)
    requires Sound(s) && gate !in ENDS && IsApproved(s.gates, gate)
    ensures !IsApproved(AfterRollBack(s, MANDATE, marked).gates, gate)
    ensures HistoryOf(AfterRollBack(s, MANDATE, marked).log, gate).Withdrawn?
    ensures Carry(AfterRollBack(s, MANDATE, marked).log, plan, gate) ==
            if Unmoved(s.gates[gate], plan, gate) then Some((Source(s.gates[gate]), s.gates[gate].crossingDigest)) else None
  {
    assert TellsTheSame(s, gate);
    assert MANDATE in UpstreamOf(s.gates, gate);
    HistorySnoc(s.log, GateRevised(marked, MANDATE, ToReset(s.gates, MANDATE)), gate);
  }

  lemma RestsOnTheMandate(s: State, gate: string, plan: Plan)
    ensures MayApprove(s, gate, plan) && gate != MANDATE ==> IsApproved(s.gates, MANDATE)
  {
    assert gate != MANDATE ==> MANDATE in UpstreamOf(s.gates, gate);
  }

  lemma NotResetAgain(s: State, target: string, marked: seq<string>, gate: string)
    requires TellsTheSame(s, gate) && HistoryOf(s.log, gate).Withdrawn?
    ensures HistoryOf(AfterRollBack(s, target, marked).log, gate) == HistoryOf(s.log, gate)
  {
    HistorySnoc(s.log, GateRevised(marked, target, ToReset(s.gates, target)), gate);
  }

  /** A withdrawn crossing stays as it is while the mandate is pending, whatever is done. */
  lemma OneVerbLeavesItWaiting(s: State, verb: Verb, gate: string)
    requires Sound(s) && verb.Valid(s) && gate !in ENDS && HistoryOf(s.log, gate).Withdrawn?
    requires !IsApproved(s.gates, MANDATE) && !IsApproved(Next(s, verb).gates, MANDATE)
    ensures HistoryOf(Next(s, verb).log, gate) == HistoryOf(s.log, gate)
  {
    assert TellsTheSame(s, gate);
    match verb
    case Approve(name, plan, id, clear) =>
      RestsOnTheMandate(s, name, plan);
      if clear && name == MANDATE && MayApprove(s, MANDATE, plan) {
        MandateGates(s, plan, id);
      }
    case RollBack(target, marked) =>
      NotResetAgain(s, target, marked, gate);
    case Add(on, id, target, reason) =>
      HistorySnoc(s.log, Other("changes_requested", [on, id, target]), gate);
    case Address(id, note) =>
      if MayAddress(s, id, note) {
        HistorySnoc(s.log, Other("changes_addressed", [Find(s.requests, id).value.gate, id]), gate);
      }
    case Note(kind, subjects) =>
      HistorySnoc(s.log, Other(kind, subjects), gate);
  }

  /** The mandate is rolled back at n and approved at no point behind. */
  ghost predicate NotApprovedSince(verbs: seq<Verb>, n: nat) {
    forall k :: n < k <= |verbs| ==> !IsApproved(RunOf(verbs[..k]).gates, MANDATE)
  }

  lemma {:induction false} StaysWaiting(verbs: seq<Verb>, n: nat, gate: string)
    requires n < |verbs| && NotApprovedSince(verbs, n) && gate !in ENDS
    requires HistoryOf(RunOf(verbs[..n + 1]).log, gate).Withdrawn?
    ensures HistoryOf(RunOf(verbs).log, gate) == HistoryOf(RunOf(verbs[..n + 1]).log, gate)
    decreases |verbs|
  {
    if n + 1 == |verbs| {
      assert verbs[..n + 1] == verbs;
    } else {
      var before, last := verbs[..|verbs| - 1], verbs[|verbs| - 1];
      forall k | n < k <= |before| ensures !IsApproved(RunOf(before[..k]).gates, MANDATE) {
        assert before[..k] == verbs[..k];
      }
      assert before[..n + 1] == verbs[..n + 1] && before[..|before|] == before && verbs[..|verbs|] == verbs;
      StaysWaiting(before, n, gate);
      EveryRunIsSound(before);
      if last.Valid(RunOf(before)) {
        OneVerbLeavesItWaiting(RunOf(before), last, gate);
      }
    }
  }

  lemma RolledBackAt(verbs: seq<Verb>, n: nat)
    requires n < |verbs| && verbs[n].RollBack? && verbs[n].target == MANDATE
    ensures RunOf(verbs[..n + 1]) == AfterRollBack(RunOf(verbs[..n]), MANDATE, verbs[n].marked)
  {
    OneMore(verbs[..n], verbs[n]);
    assert verbs[..n] + [verbs[n]] == verbs[..n + 1];
  }

  /** A gate rolled back with the mandate is waiting from then on. */
  lemma WaitingSince(verbs: seq<Verb>, n: nat, s: State, plan: Plan, gate: string)
    requires n < |verbs| && verbs[n].RollBack? && verbs[n].target == MANDATE && NotApprovedSince(verbs, n)
    requires s == RunOf(verbs[..n]) && gate !in ENDS && IsApproved(s.gates, gate)
    ensures !IsApproved(RunOf(verbs[..n + 1]).gates, gate)
    ensures Carry(RunOf(verbs).log, plan, gate) ==
            if Unmoved(s.gates[gate], plan, gate) then Some((Source(s.gates[gate]), s.gates[gate].crossingDigest)) else None
  {
    EveryRunIsSound(verbs[..n]);
    RolledBackAt(verbs, n);
    CarryOfWithdrawn(s, verbs[n].marked, plan, gate);
    StaysWaiting(verbs, n, gate);
  }

  /** A crossing rolled back with the mandate and confirmed over a digest that has not moved is open
      again once the mandate is, whatever was done in between, without being asked for; one whose digest
      moved is pending. */
  lemma CarriedExactlyWhenUnmoved(verbs: seq<Verb>, n: nat, s: State, plan: Plan, id: string, gate: string)
    requires n < |verbs| && verbs[n].RollBack? && verbs[n].target == MANDATE && NotApprovedSince(verbs, n)
    requires s == RunOf(verbs[..n]) && IsApproved(s.gates, gate)
    requires plan.Valid() && gate in plan.crossings && MayApprove(RunOf(verbs), MANDATE, plan)
    ensures !IsApproved(RunOf(verbs[..n + 1]).gates, gate)
    ensures var again := AfterApprove(RunOf(verbs), MANDATE, plan, id).gates;
            && gate in again
            && again[gate] == if Unmoved(s.gates[gate], plan, gate)
                              then Approved(id, s.gates[gate].crossingDigest, Source(s.gates[gate])) else Pending
  {
    EveryRunIsSound(verbs);
    WaitingSince(verbs, n, s, plan, gate);
    MandateGates(RunOf(verbs), plan, id);
  }

  // ---- a request recorded after its gate was looked for ----------------------------------------------------

  /** `add` as written looks for the gate in one reading of the document and appends to a later one:
      this is the append alone. What it leaves is sound exactly when the gate is still there. */
  lemma AppendHoldsIff(s: State, gate: string, id: string, target: string, reason: string)
    requires Sound(s) && Find(s.requests, id).None?
    ensures Sound(AfterAdd(s, gate, id, target, reason)) <==> gate in s.gates
  {
    var after := AfterAdd(s, gate, id, target, reason);
    if gate in s.gates {
      JustAnEvent(s, s.requests + [Request(id, gate, target, reason, Open, "")], "changes_requested", [gate, id, target]);
    } else {
      assert after.requests[|s.requests|] == Request(id, gate, target, reason, Open, "");
    }
  }

  lemma MandateMayBeApproved(s: State, plan: Plan)
    requires ENDS <= s.gates.Keys && s.requests == [] && s.gates[MANDATE] == Pending
    ensures MayApprove(s, MANDATE, plan)
  {
  }

  lemma OneMore(verbs: seq<Verb>, verb: Verb)
    requires verb.Valid(RunOf(verbs))
    ensures RunOf(verbs + [verb]) == Next(RunOf(verbs), verb)
  {
    assert (verbs + [verb])[..|verbs|] == verbs;
    EveryRunIsSound(verbs);
  }

  /** A mandate approved over this plan, in a run without change requests. */
  lemma OverPlan(verbs: seq<Verb>, plan: Plan, id: string) returns (longer: seq<Verb>)
    requires RunOf(verbs).requests == [] && RunOf(verbs).gates[MANDATE] == Pending && plan.Valid()
    ensures verbs <= longer && RunOf(longer).requests == []
    ensures RunOf(longer).gates.Keys == ENDS + CrossingSet(plan)
    ensures IsApproved(RunOf(longer).gates, MANDATE) && RunOf(longer).gates[ACCEPTANCE] == Pending
  {
    EveryRunIsSound(verbs);
    MandateMayBeApproved(RunOf(verbs), plan);
    MandateGates(RunOf(verbs), plan, id);
    OneMore(verbs, Approve(MANDATE, plan, id, true));
    longer := verbs + [Approve(MANDATE, plan, id, true)];
  }

  /** Its mandate rolled back again. */
  lemma RolledBackAgain(verbs: seq<Verb>) returns (longer: seq<Verb>)
    requires RunOf(verbs).requests == [] && IsApproved(RunOf(verbs).gates, MANDATE)
    ensures verbs <= longer && RunOf(longer).requests == [] && RunOf(longer).gates[MANDATE] == Pending
  {
    EveryRunIsSound(verbs);
    OneMore(verbs, RollBack(MANDATE, []));
    longer := verbs + [RollBack(MANDATE, [])];
  }

  /** And it may be gone: between the two readings the cycle is rolled back and its mandate approved
      over a plan without that crossing. The request then holds nothing shut. */
  lemma GateGoneBeforeAppend() returns (seen: seq<Verb>, later: seq<Verb>)
    ensures seen <= later
    ensures "T-001" in RunOf(seen).gates && "T-001" !in RunOf(later).gates
    ensures !Sound(AfterAdd(RunOf(later), "T-001", "CR-1", "T-001", "not yet"))
  {
    var plan := Plan(["T-001"], map["T-001" := "d"]);
    assert RunOf([]) == INITIAL;
    seen := OverPlan([], plan, "GA-1");
    assert "T-001" in CrossingSet(plan);
    var rolled := RolledBackAgain(seen);
    later := OverPlan(rolled, Plan([], map[]), "GA-2");
    EveryRunIsSound(later);
    AppendHoldsIff(RunOf(later), "T-001", "CR-1", "T-001", "not yet");
  }

  // ---- a roll back worked out on an earlier document -------------------------------------------------------

  /** Every approved gate that rests on a reset one is reset as well. */
  predicate CoversDownstream(gates: map<string, Gate>, resets: set<string>) {
    forall g, up :: g in gates && up in resets && IsApproved(gates, g) && Rests(g, up) ==> g in resets
  }

  predicate Rests(g: string, up: string) {
    (up == MANDATE && g != MANDATE) || (g == ACCEPTANCE && up != ACCEPTANCE)
  }

  /** It leaves no gate approved on a pending one exactly when its list covers every approved gate
      downstream, as the document then stands. */
  lemma StaleResetHoldsIff(s: State, resets: set<string>)
    requires Sound(s)
    ensures ChainHeld(Reset(s.gates, resets)) <==> CoversDownstream(s.gates, resets)
  {
    var after := Reset(s.gates, resets);
    if CoversDownstream(s.gates, resets) {
      forall g | IsApproved(after, g) ensures !PendingUpstream(after, g) {
        assert !PendingUpstream(s.gates, g);
        forall up | up in UpstreamOf(after, g) ensures IsApproved(after, up) {
          assert Rests(g, up);
          assert up in resets || up in UpstreamOf(s.gates, g);
        }
      }
    } else {
      var g, up :| g in s.gates && up in resets && IsApproved(s.gates, g) && Rests(g, up) && g !in resets;
      assert IsApproved(after, g) && up in UpstreamOf(after, g) && !IsApproved(after, up);
    }
  }

  /** The list covers the document it is applied to, and brings back no gate a standing mandate has not. */
  predicate StillFits(seen: State, s: State, target: string) {
    var resets := ToReset(seen.gates, target);
    CoversDownstream(s.gates, resets) && (s.frozen.Some? && MANDATE !in resets ==> resets <= s.gates.Keys)
  }

  /** A sound document resets the mandate exactly when it thaws the plan, and crossings other than the
      target only with the mandate. */
  lemma ResetWithTheMandate(seen: State, target: string)
    requires Sound(seen) && target in seen.gates
    ensures MANDATE in ToReset(seen.gates, target) <==> target == MANDATE && seen.frozen.Some?
    ensures forall g :: g in ToReset(seen.gates, target) && g !in ENDS && g != target ==> MANDATE in ToReset(seen.gates, target)
  {
    forall g | g in ToReset(seen.gates, target) && g !in ENDS && g != target
      ensures MANDATE in ToReset(seen.gates, target)
    {
      assert !PendingUpstream(seen.gates, g) && MANDATE in UpstreamOf(seen.gates, g);
    }
  }

  /** The chain and what the document makes of it, whatever was seen. */
  lemma StaleResetTellsTheSame(seen: State, s: State, target: string, marked: seq<string>, g: string)
    requires Sound(seen) && Sound(s) && target in seen.gates
    ensures TellsTheSame(AfterRollBackAsOf(seen, s, target, marked), g)
    ensures WaitsForMandate(AfterRollBackAsOf(seen, s, target, marked), g)
  {
    ResetWithTheMandate(seen, target);
    HistorySnoc(s.log, GateRevised(marked, target, ToReset(seen.gates, target)), g);
    assert TellsTheSame(s, g) && WaitsForMandate(s, g);
  }

  /** A roll back worked out on one document and applied to another leaves that sound exactly when its
      list still fits. */
  lemma StaleRollBackHoldsIff(seen: State, s: State, target: string, marked: seq<string>)
    requires Sound(seen) && Sound(s) && target in seen.gates
    ensures Sound(AfterRollBackAsOf(seen, s, target, marked)) <==> StillFits(seen, s, target)
  {
    var after, resets := AfterRollBackAsOf(seen, s, target, marked), ToReset(seen.gates, target);
    ResetWithTheMandate(seen, target);
    StaleResetHoldsIff(s, resets);
    ChainSnoc(s.log, GateRevised(marked, target, resets));
    forall g ensures TellsTheSame(after, g) && WaitsForMandate(after, g) {
      StaleResetTellsTheSame(seen, s, target, marked, g);
    }
    assert RequestsHeld(after) && DistinctIds(after.requests);
    FrozenIff(seen, s, target, marked);
  }

  lemma FrozenIff(seen: State, s: State, target: string, marked: seq<string>)
    requires Sound(seen) && Sound(s) && target in seen.gates
    ensures var resets := ToReset(seen.gates, target);
            Frozen(AfterRollBackAsOf(seen, s, target, marked)) <==> (s.frozen.Some? && MANDATE !in resets ==> resets <= s.gates.Keys)
  {
    var after, resets := AfterRollBackAsOf(seen, s, target, marked), ToReset(seen.gates, target);
    ResetWithTheMandate(seen, target);
    assert after.gates.Keys == s.gates.Keys + resets;
    assert after.frozen == if MANDATE in resets then None else s.frozen;
    assert resets <= s.gates.Keys <==> s.gates.Keys + resets == s.gates.Keys;
  }

  /** Worked out on the document it resets, the list covers. */
  lemma FreshResetCovers(s: State, target: string)
    requires Sound(s) && target in s.gates
    ensures StillFits(s, s, target)
  {
    forall g, up | g in s.gates && up in ToReset(s.gates, target) && IsApproved(s.gates, g) && Rests(g, up)
      ensures g in ToReset(s.gates, target)
    {
      assert up in UpstreamOf(s.gates, g);
      if up != target {
        UpstreamIsTransitive(s.gates, g, up, target);
      }
    }
  }

  /** And it may not: the acceptance approved between the two readings stays approved on a pending mandate. */
  lemma AcceptedMeanwhile() returns (seen: seq<Verb>, later: seq<Verb>)
    ensures seen <= later
    ensures !ChainHeld(AfterRollBackAsOf(RunOf(seen), RunOf(later), MANDATE, []).gates)
  {
    var plan := Plan([], map[]);
    assert RunOf([]) == INITIAL;
    seen := OverPlan([], plan, "GA-1");
    EveryRunIsSound(seen);
    var s := RunOf(seen);
    var accept := Approve(ACCEPTANCE, plan, "GA-2", true);
    assert MANDATE != ACCEPTANCE;
    AcceptanceMayBeApproved(s, plan);
    OneMore(seen, accept);
    later := seen + [accept];
    EveryRunIsSound(later);
    var resets := ToReset(s.gates, MANDATE);
    assert MANDATE in resets && ACCEPTANCE !in resets;
    assert Rests(ACCEPTANCE, MANDATE) && IsApproved(RunOf(later).gates, ACCEPTANCE);
    StaleResetHoldsIff(RunOf(later), resets);
  }

  lemma AcceptanceMayBeApproved(s: State, plan: Plan)
    requires s.gates.Keys == ENDS && s.requests == [] && IsApproved(s.gates, MANDATE) && s.gates[ACCEPTANCE] == Pending
    ensures MayApprove(s, ACCEPTANCE, plan)
  {
    assert UpstreamOf(s.gates, ACCEPTANCE) == {MANDATE};
  }

  // ---- every run, whatever was seen ------------------------------------------------------------------------

  /** A verb in one transaction, or one of the two that look at the document as it stood after the first
      so many moves and act on it as it stands. */
  datatype Move =
    | Do(verb: Verb)
    | RollBackAsOf(at: nat, target: string, marked: seq<string>)
    | AddAsOf(at: nat, gate: string, id: string, target: string, reason: string)

  ghost function Reached(moves: seq<Move>): (s: State)
    ensures ENDS <= s.gates.Keys
  {
    if moves == [] then INITIAL
    else
      var before, last := moves[..|moves| - 1], moves[|moves| - 1];
      var s := Reached(before);
      match last
      case Do(verb) => if verb.Valid(s) then Next(s, verb) else s
      case RollBackAsOf(at, target, marked) =>
        var seen := Reached(if at < |before| then before[..at] else before);
        if target in seen.gates then AfterRollBackAsOf(seen, s, target, marked) else s
      case AddAsOf(at, gate, id, target, reason) =>
        var seen := Reached(if at < |before| then before[..at] else before);
        if MayAdd(seen.gates, gate, target, reason) && Find(s.requests, id).None? then AfterAdd(s, gate, id, target, reason) else s
  }

  ghost function Seen(before: seq<Move>, at: nat): State {
    Reached(if at < |before| then before[..at] else before)
  }

  /** What the move saw still holds as far as it acts on it. */
  ghost predicate Timely(before: seq<Move>, move: Move) {
    match move
    case Do(_) => true
    case RollBackAsOf(at, target, _) =>
      target in Seen(before, at).gates ==> StillFits(Seen(before, at), Reached(before), target)
    case AddAsOf(at, gate, id, target, reason) =>
      MayAdd(Seen(before, at).gates, gate, target, reason) && Find(Reached(before).requests, id).None? ==> gate in Reached(before).gates
  }

  ghost predicate AllTimely(moves: seq<Move>) {
    forall k :: 0 <= k < |moves| ==> Timely(moves[..k], moves[k])
  }

  /** Sound after the last move and after every one before it. */
  ghost predicate SoundThroughout(moves: seq<Move>) {
    Sound(Reached(moves)) && (moves != [] ==> SoundThroughout(moves[..|moves| - 1]))
  }

  lemma {:induction false} SoundAt(moves: seq<Move>, k: nat)
    requires SoundThroughout(moves) && k <= |moves|
    ensures Sound(Reached(moves[..k]))
  {
    if k == |moves| {
      assert moves[..k] == moves;
    } else {
      SoundAt(moves[..|moves| - 1], k);
      assert moves[..|moves| - 1][..k] == moves[..k];
    }
  }

  lemma OneMove(before: seq<Move>, move: Move)
    requires SoundThroughout(before)
    ensures Sound(Reached(before + [move])) <==> Timely(before, move)
  {
    var s := Reached(before);
    assert (before + [move])[..|before|] == before;
    match move
    case Do(verb) =>
      if verb.Valid(s) {
        NextIsSound(s, verb);
      }
    case RollBackAsOf(at, target, marked) =>
      var seen := Seen(before, at);
      SoundAt(before, if at < |before| then at else |before|);
      assert before[..|before|] == before;
      if target in seen.gates {
        StaleRollBackHoldsIff(seen, s, target, marked);
      }
    case AddAsOf(at, gate, id, target, reason) =>
      if Find(s.requests, id).None? {
        AppendHoldsIff(s, gate, id, target, reason);
      }
  }

  lemma TimelySnoc(before: seq<Move>, last: Move)
    ensures AllTimely(before + [last]) <==> AllTimely(before) && Timely(before, last)
  {
    var moves := before + [last];
    assert moves[..|before|] == before && moves[|before|] == last;
    assert forall k :: 0 <= k < |before| ==> moves[..k] == before[..k] && moves[k] == before[k];
  }

  /** A run keeps everything at every step exactly when every move that acts on an earlier reading is
      timely: the list still fits, the gate is still there. */
  lemma {:induction false} SoundExactlyWhenTimely(moves: seq<Move>)
    ensures SoundThroughout(moves) <==> AllTimely(moves)
  {
    if moves == [] {
      InitialIsSound();
    } else {
      var before, last := moves[..|moves| - 1], moves[|moves| - 1];
      assert moves == before + [last];
      SoundExactlyWhenTimely(before);
      TimelySnoc(before, last);
      if SoundThroughout(before) {
        OneMove(before, last);
      }
    }
  }

  /** And a move is timely when nothing came between what it saw and what it does. */
  lemma TimelyWhenFresh(before: seq<Move>, move: Move)
    requires Sound(Reached(before))
    requires move.Do? || move.at >= |before|
    ensures Timely(before, move)
  {
    if move.RollBackAsOf? && move.target in Reached(before).gates {
      FreshResetCovers(Reached(before), move.target);
    }
  }
}
