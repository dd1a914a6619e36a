/** What a running leaf may record: one scoped request, applied to a document that other leaves and
    the orchestrator are writing at the same time (src/rein/control_plane.py). */
module LeafProtocol {
  import opened Optional
  import opened TaskGraph

  // ---- the document ----------------------------------------------------------------------------

  datatype Outcome = Implemented | CannotGoOn | PlanIsWrong

  datatype Report = Report(outcome: Outcome, summary: string, touched: seq<string>)

  /** `after` is order added beside the frozen plan; `rest` is whatever else the entry holds. */
  datatype TaskEntry = TaskEntry(status: Status, after: seq<string>, report: Option<Report>, rest: string)

  const NO_ENTRY: TaskEntry := TaskEntry(Todo, [], None, "")

  /** `cycle` is the cycle the document is of; between two cycles there is no document, which is one of
      no cycle here. */
  datatype Doc = Doc(cycle: string, tasks: map<string, TaskEntry>, rest: string) {
    predicate Missing() {
      cycle == ""
    }

    function Of(task: string): TaskEntry {
      if task in tasks then tasks[task] else NO_ENTRY
    }
  }

  datatype Event = Event(kind: string, cycle: string, subject: string, runId: string)

  /** The document and the chain beside it: what one transaction moves together. */
  datatype Record = Record(doc: Doc, events: seq<Event>)

  // ---- requests ------------------------------------------------------------------------------------

  datatype Token = Token(runId: string, taskId: string, capabilities: set<string>, nonce: string)

  datatype Args = Args(task: string, statement: string, rationale: string, undo: string, anchor: string, report: Option<Report>)

  datatype Request = Request(capability: string, args: Args, nonce: string)

  datatype Refusal =
    | CentralOnly | UnknownCapability | BadToken | NotGranted | NoNonce | Replayed
    | OutOfScope | NoStatement | DecisionIncomplete | DecisionTooLong | NoOutcome | NoTask | NotInProgress | NoState | Stale

  const CENTRAL_ONLY: set<string> :=
    {"gate.approve", "expert.confirm", "human.review.complete", "review.machine.replace", "state.replace"}

  const REPAIR_GRANT: string := "scope.repair"

  const SERVED: set<string> := {"decision.declare", "knowledge_gap.create", "task.status", "event.append", "scope.repair"}

  /** `_dispatch` up to the nonce: refused whatever the token says, and then by what it says. */
  function Screen(token: Option<Token>, request: Request): Option<Refusal> {
    if request.capability in CENTRAL_ONLY then Some(CentralOnly)
    else if request.capability !in SERVED then Some(UnknownCapability)
    else if token.None? then Some(BadToken)
    else if request.capability !in token.value.capabilities then Some(NotGranted)
    else if request.nonce == "" then Some(NoNonce)
    else None
  }

  /** What gets past it: one of five capabilities, in a token that grants it, with a nonce. */
  lemma ScreenExactly(token: Option<Token>, request: Request)
    ensures Screen(token, request).None? <==>
              && request.capability in {"decision.declare", "knowledge_gap.create", "task.status", "event.append", "scope.repair"}
              && token.Some? && request.capability in token.value.capabilities && request.nonce != ""
    ensures request.capability in {"gate.approve", "expert.confirm", "human.review.complete", "review.machine.replace", "state.replace"} ==>
              Screen(token, request) == Some(CentralOnly)
  {
    assert "gate.approve"[0] == 'g' && "expert.confirm"[0] == 'e' && "human.review.complete"[0] == 'h';
  }

  /** `_subject`: the task the token was minted for, and no other. */
  function Subject(token: Token, args: Args): Option<string> {
    if args.task != "" && token.taskId != "" && args.task != token.taskId then None
    else Some(if token.taskId != "" then token.taskId else args.task)
  }

  function StatusOf(outcome: Outcome): Status {
    match outcome
    case Implemented => InProgress
    case CannotGoOn => Blocked
    case PlanIsWrong => NeedsRevision
  }

  function DecisionEvent(capability: string, status: Status): string {
    if capability == "task.status" then
      match status
      case Blocked => "task_failed"
      case NeedsRevision => "knowledge_gap"
      case _ => "task_started"
    else if capability == "knowledge_gap.create" then "knowledge_gap"
    else "decision_declared"
  }

  /** What a request comes to, worked out on the document as it was read. */
  datatype Staged = Refused(why: Refusal) | Append(event: Event) | Write(doc: Doc, event: Event)

  function Stage(doc: Doc, token: Token, request: Request): Staged {
    var args, capability := request.args, request.capability;
    var subject := Subject(token, args);
    if doc.Missing() then Refused(NoState)
    else if subject.None? then Refused(OutOfScope)
    else if capability in {"decision.declare", "knowledge_gap.create"} && args.statement == "" then Refused(NoStatement)
    else if capability == "decision.declare" && (args.rationale == "" || args.undo == "" || args.anchor == "") then
      Refused(DecisionIncomplete)
    else if capability == "decision.declare" &&
            (|args.statement| > 2000 || |args.rationale| > 2000 || |args.undo| > 2000 || |args.anchor| > 512) then
      Refused(DecisionTooLong)
    else if capability != "task.status" then
      Append(Event(DecisionEvent(capability, Todo), doc.cycle, subject.value, token.runId))
    else if args.report.None? then Refused(NoOutcome)
    else if subject.value == "" then Refused(NoTask)
    else if doc.Of(subject.value).status != InProgress then Refused(NotInProgress)
    else
      var status := StatusOf(args.report.value.outcome);
      var entry := doc.Of(subject.value).(status := status, report := args.report);
      Write(doc.(tasks := doc.tasks[subject.value := entry]),
            Event(DecisionEvent(capability, status), doc.cycle, subject.value, token.runId))
  }

  /** A request performed in one piece. */
  function Atomic(record: Record, token: Token, request: Request): Record {
    match Stage(record.doc, token, request)
    case Refused(_) => record
    case Append(event) => Record(record.doc, record.events + [event])
    case Write(doc, event) => Record(doc, record.events + [event])
  }

  /** The transaction goes through: it writes nothing, or the document is the one it was worked out on. */
  predicate Lands(record: Record, seen: Doc, staged: Staged) {
    staged.Append? || (staged.Write? && record.doc == seen)
  }

  function Landed(record: Record, staged: Staged): Record
    requires !staged.Refused?
  {
    Record(if staged.Write? then staged.doc else record.doc, record.events + [staged.event])
  }

  /** An append is worked out on one document and lands beside another: whatever is in between, it would
      be refused there only if there is none, and differs at most in the cycle it names. */
  lemma AppendsAnywhere(a: Doc, b: Doc, token: Token, request: Request)
    requires Stage(a, token, request).Append?
    ensures Stage(b, token, request) ==
            if b.Missing() then Refused(NoState) else Append(Stage(a, token, request).event.(cycle := b.cycle))
  {
  }

  /** What lands is the request performed in one piece exactly when it writes the document, or the
      document it was worked out on was of the same cycle. */
  lemma LandsAsAtomicExactly(record: Record, seen: Doc, token: Token, request: Request)
    requires Lands(record, seen, Stage(seen, token, request))
    ensures Landed(record, Stage(seen, token, request)) == Atomic(record, token, request)
            <==> Stage(seen, token, request).Write? || seen.cycle == record.doc.cycle
    ensures Landed(record, Stage(seen, token, request)).doc == Atomic(record, token, request).doc
  {
    var staged := Stage(seen, token, request);
    if staged.Append? {
      AppendsAnywhere(seen, record.doc, token, request);
      var landed, atomic := Landed(record, staged), Atomic(record, token, request);
      var n := |record.events|;
      if !record.doc.Missing() {
        assert landed.events[n] == staged.event && atomic.events[n] == staged.event.(cycle := record.doc.cycle);
      } else {
        assert |landed.events| > |atomic.events|;
      }
    }
  }

  // ---- what a request can write --------------------------------------------------------------------

  /** One task moved on from in-progress, to a status that is neither done nor todo. */
  predicate Narrows(before: Doc, after: Doc, task: string) {
    && task in before.tasks && before.tasks[task].status == InProgress
    && task in after.tasks && after.tasks[task].status in {InProgress, Blocked, NeedsRevision}
    && after == before.(tasks := before.tasks[task := after.tasks[task]])
    && after.tasks[task].after == before.tasks[task].after && after.tasks[task].rest == before.tasks[task].rest
  }

  lemma AtomicNarrows(record: Record, token: Token, request: Request)
    ensures Atomic(record, token, request).doc == record.doc
            || exists task :: Narrows(record.doc, Atomic(record, token, request).doc, task) && (token.taskId != "" ==> task == token.taskId)
  {
    if Stage(record.doc, token, request).Write? {
      var task := Subject(token, request.args).value;
      assert Narrows(record.doc, Atomic(record, token, request).doc, task);
    }
  }

  /** The request is about this task: the token's own, or with a token of none the one it names. */
  predicate IsAbout(token: Token, request: Request, task: string) {
    if token.taskId != "" then task == token.taskId && request.args.task in {"", token.taskId} else task == request.args.task
  }

  /** A report on a task in progress: what becomes of the task, the report kept with it, and the event. */
  lemma ReportIsRecorded(record: Record, token: Token, request: Request, task: string)
    requires request.capability == "task.status" && request.args.report.Some?
    requires IsAbout(token, request, task) && task != ""
    requires !record.doc.Missing() && record.doc.Of(task).status == InProgress
    ensures var after, outcome := Atomic(record, token, request), request.args.report.value.outcome;
            && task in after.doc.tasks
            && (after.doc.tasks[task].status == InProgress <==> outcome == Implemented)
            && (after.doc.tasks[task].status == Blocked <==> outcome == CannotGoOn)
            && (after.doc.tasks[task].status == NeedsRevision <==> outcome == PlanIsWrong)
            && after.doc.tasks[task].report == request.args.report
            && after.events == record.events + [Event(
                 match outcome case Implemented => "task_started" case CannotGoOn => "task_failed" case PlanIsWrong => "knowledge_gap",
                 record.doc.cycle, task, token.runId)]
  {
  }

  /** What else is served adds its one event and leaves the document. */
  lemma StatementIsRecorded(record: Record, token: Token, request: Request, task: string)
    requires request.capability in {"decision.declare", "knowledge_gap.create", "event.append"}
    requires IsAbout(token, request, task) && !IsRefused(record.doc, token, request)
    ensures Atomic(record, token, request) == Record(record.doc, record.events + [Event(
              if request.capability == "knowledge_gap.create" then "knowledge_gap" else "decision_declared",
              record.doc.cycle, task, token.runId)])
  {
  }

  /** There is no cycle, or the request names another task than its token's, or lacks what it needs; or it
      reports on a task that is not in progress. */
  predicate IsRefused(doc: Doc, token: Token, request: Request) {
    var args := request.args;
    var task := if token.taskId != "" then token.taskId else args.task;
    || doc.Missing()
    || (args.task != "" && token.taskId != "" && args.task != token.taskId)
    || (request.capability in {"decision.declare", "knowledge_gap.create"} && args.statement == "")
    || (request.capability == "decision.declare" &&
          (|| args.rationale == "" || args.undo == "" || args.anchor == ""
           || |args.statement| > 2000 || |args.rationale| > 2000 || |args.undo| > 2000 || |args.anchor| > 512))
    || (request.capability == "task.status" &&
          (args.report.None? || task == "" || task !in doc.tasks || doc.tasks[task].status != InProgress))
  }

  /** Just then nothing is recorded. */
  lemma RefusedExactly(record: Record, token: Token, request: Request)
    ensures Atomic(record, token, request) == record <==> IsRefused(record.doc, token, request)
  {
    var after := Atomic(record, token, request);
    assert !Stage(record.doc, token, request).Refused? ==> |after.events| == |record.events| + 1;
  }

  // ---- the nonces ------------------------------------------------------------------------------------

  function NonceKey(tokenNonce: string, requestNonce: string): string {
    tokenNonce + ":" + requestNonce
  }

  /** A token nonce without a separator keeps the pairs apart: one leaf's request nonce never spends
      another's. */
  lemma {:induction false} KeyTellsPairsApart(t: string, r: string, u: string, s: string)
    requires ':' !in t && ':' !in u && NonceKey(t, r) == NonceKey(u, s)
    ensures t == u && r == s
  {
    var p, q := NonceKey(t, r), NonceKey(u, s);
    assert t != [] ==> p[0] == t[0] && t[0] in t;
    assert u != [] ==> q[0] == u[0] && u[0] in u;
    assert p[0] == q[0];
    if t != [] && u != [] {
      assert p[1..] == NonceKey(t[1..], r) && q[1..] == NonceKey(u[1..], s);
      KeyTellsPairsApart(t[1..], r, u[1..], s);
      assert t == [t[0]] + t[1..] && u == [u[0]] + u[1..];
    } else {
      assert p[1..] == r && q[1..] == s;
    }
  }

  lemma SeparatorConfusesPairs()
    ensures NonceKey("a:b", "c") == NonceKey("a", "b:c")
  {
    assert "a:b" == "a" + ":" + "b" && "b:c" == "b" + ":" + "c";
  }

  const ATTEMPTS: nat := 5

  datatype Answer = Granted | Recorded | Denied(why: Refusal)
}
