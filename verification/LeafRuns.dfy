/** Every interleaving of leaf requests with one another and with the orchestrator
    (src/rein/control_plane.py). */
module LeafRuns {
  import opened Optional
  import opened TaskGraph
  import opened Frontier
  import opened LeafProtocol

  /** A connection: turned away, waiting to read, holding what it read, or answered. */
  datatype Thread =
    | TurnedAway(why: Refusal)
    | Reading(token: Token, request: Request, left: nat)
    | Holding(token: Token, request: Request, left: nat, seen: Doc)
    | Answered(token: Token, request: Request, answer: Answer)

  /** `eras` says in which life of the server each connection was presented, `era` which one this is. */
  datatype World = World(record: Record, nonces: set<string>, threads: map<nat, Thread>, era: nat, eras: map<nat, nat>)

  /** One step of one connection, a write of the orchestrator's own, the document and the chain moved to
      the archive, or the server stopped and started again: its key is on disk and its tokens go on, the
      nonces it saw do not. */
  datatype Move =
    | Present(id: nat, token: Option<Token>, request: Request)
    | Read(id: nat)
    | Commit(id: nat)
    | Central(doc: Doc, event: Event)
    | Archive
    | Restart

  /** What an archived cycle leaves: no document, and no chain. */
  const CLEARED: Record := Record(Doc("", map[], ""), [])

  function Presented(w: World, id: nat, token: Option<Token>, request: Request): Thread {
    var refusal := Screen(token, request);
    if refusal.Some? then TurnedAway(refusal.value)
    else if NonceKey(token.value.nonce, request.nonce) in w.nonces then TurnedAway(Replayed)
    else if request.capability == REPAIR_GRANT then Answered(token.value, request, Granted)
    else Reading(token.value, request, ATTEMPTS)
  }

  function Claims(token: Option<Token>, request: Request): set<string> {
    if Screen(token, request).Some? then {} else {NonceKey(token.value.nonce, request.nonce)}
  }

  function AfterRead(w: World, t: Thread): Thread
    requires t.Reading?
  {
    match Stage(w.record.doc, t.token, t.request)
    case Refused(why) => Answered(t.token, t.request, Denied(why))
    case _ => Holding(t.token, t.request, t.left, w.record.doc)
  }

  predicate ThreadLands(w: World, t: Thread)
    requires t.Holding?
  {
    Lands(w.record, t.seen, Stage(t.seen, t.token, t.request))
  }

  function AfterCommit(w: World, t: Thread): (Record, Thread)
    requires t.Holding?
  {
    var staged := Stage(t.seen, t.token, t.request);
    if ThreadLands(w, t) then (Landed(w.record, staged), Answered(t.token, t.request, Recorded))
    else if t.left <= 1 then (w.record, Answered(t.token, t.request, Denied(Stale)))
    else (w.record, Reading(t.token, t.request, t.left - 1))
  }

  function Next(w: World, move: Move): World {
    match move
    case Present(id, token, request) =>
      if id in w.threads then w
      else w.(nonces := w.nonces + Claims(token, request), threads := w.threads[id := Presented(w, id, token, request)],
              eras := w.eras[id := w.era])
    case Read(id) =>
      if id in w.threads && w.threads[id].Reading? then w.(threads := w.threads[id := AfterRead(w, w.threads[id])]) else w
    case Commit(id) =>
      if id in w.threads && w.threads[id].Holding? then
        var (record, thread) := AfterCommit(w, w.threads[id]);
        w.(record := record, threads := w.threads[id := thread])
      else w
    case Central(doc, event) =>
      w.(record := Record(doc, w.record.events + [event]))
    case Archive => w.(record := CLEARED)
    case Restart => w.(nonces := {}, era := w.era + 1)
  }

  function RunOf(start: Record, moves: seq<Move>): World {
    if moves == [] then World(start, {}, map[], 0, map[])
    else Next(RunOf(start, moves[..|moves| - 1]), moves[|moves| - 1])
  }

  // ---- nothing is lost: the run is the requests performed one after another ------------------------

  datatype Op = Leaf(id: nat, token: Token, request: Request) | Orchestrator(doc: Doc, event: Event) | Archival

  function Perform(record: Record, op: Op): Record {
    match op
    case Leaf(_, token, request) => Atomic(record, token, request)
    case Orchestrator(doc, event) => Record(doc, record.events + [event])
    case Archival => CLEARED
  }

  function Replay(start: Record, ops: seq<Op>): Record {
    if ops == [] then start else Perform(Replay(start, ops[..|ops| - 1]), ops[|ops| - 1])
  }

  /** What a move performs, if anything. */
  function OpOf(w: World, move: Move): seq<Op> {
    match move
    case Commit(id) =>
      if id in w.threads && w.threads[id].Holding? && ThreadLands(w, w.threads[id]) then
        [Leaf(id, w.threads[id].token, w.threads[id].request)]
      else []
    case Central(doc, event) => [Orchestrator(doc, event)]
    case Archive => [Archival]
    case _ => []
  }

  /** What a run performed, in the order the commits landed. */
  function Performed(start: Record, moves: seq<Move>): seq<Op> {
    if moves == [] then []
    else
      var before := moves[..|moves| - 1];
      Performed(start, before) + OpOf(RunOf(start, before), moves[|moves| - 1])
  }

  /** The move does not land an append that was worked out in another cycle. */
  predicate Timely(w: World, move: Move) {
    move.Commit? && move.id in w.threads && w.threads[move.id].Holding? ==>
      var t := w.threads[move.id];
      Stage(t.seen, t.token, t.request).Append? ==> t.seen.cycle == w.record.doc.cycle
  }

  /** Every append since the chain was last archived was timely. */
  predicate AllTimely(start: Record, moves: seq<Move>) {
    moves == [] || moves[|moves| - 1].Archive? ||
    var before := moves[..|moves| - 1];
    AllTimely(start, before) && Timely(RunOf(start, before), moves[|moves| - 1])
  }

  lemma SameLast<T>(a: seq<T>, x: T, b: seq<T>, y: T)
    ensures a + [x] == b + [y] <==> a == b && x == y
  {
    if a + [x] == b + [y] {
      assert (a + [x])[..|a + [x]| - 1] == a && (b + [y])[..|b + [y]| - 1] == b;
      assert (a + [x])[|a|] == x && (b + [y])[|b|] == y;
    }
  }

  /** What a commit adds to the chain, and what it would add performed in one piece. */
  lemma OneCommit(w: World, id: nat, other: Record)
    requires w.record.doc == other.doc && |w.record.events| >= |other.events|
    requires id in w.threads && w.threads[id].Holding? && ThreadLands(w, w.threads[id])
    ensures var t := w.threads[id];
            var after, replayed := Landed(w.record, Stage(t.seen, t.token, t.request)), Atomic(other, t.token, t.request);
            && after.doc == replayed.doc && |after.events| >= |replayed.events|
            && (after.events == replayed.events <==> w.record.events == other.events && Timely(w, Commit(id)))
  {
    var t := w.threads[id];
    var staged := Stage(t.seen, t.token, t.request);
    if staged.Append? {
      AppendsAnywhere(t.seen, other.doc, t.token, t.request);
      SameLast(w.record.events, staged.event, other.events, staged.event.(cycle := other.doc.cycle));
    } else {
      SameLast(w.record.events, staged.event, other.events, staged.event);
    }
  }

  lemma OneMove(w: World, move: Move, other: Record)
    requires w.record.doc == other.doc && |w.record.events| >= |other.events| && |OpOf(w, move)| == 1
    ensures var after, replayed := Next(w, move).record, Perform(other, OpOf(w, move)[0]);
            && after.doc == replayed.doc && |after.events| >= |replayed.events|
            && (after.events == replayed.events <==> move.Archive? || (w.record.events == other.events && Timely(w, move)))
  {
    match move
    case Commit(id) =>
      OneCommit(w, id, other);
    case Central(doc, event) =>
      SameLast(w.record.events, event, other.events, event);
    case Archive =>
  }

  /** Whatever the interleaving, the document is that of the landed requests, the orchestrator's writes
      and its archiving performed one at a time: no update is lost, half-made or made twice. And so is the
      chain, exactly when no append in it landed in another cycle than it was worked out in. */
  lemma {:induction false} EveryRunIsSequential(start: Record, moves: seq<Move>)
    ensures RunOf(start, moves).record.doc == Replay(start, Performed(start, moves)).doc
    ensures |RunOf(start, moves).record.events| >= |Replay(start, Performed(start, moves)).events|
    ensures RunOf(start, moves).record == Replay(start, Performed(start, moves)) <==> AllTimely(start, moves)
  {
    if moves != [] {
      var before, last := moves[..|moves| - 1], moves[|moves| - 1];
      var w := RunOf(start, before);
      EveryRunIsSequential(start, before);
      var done, op := Performed(start, before), OpOf(w, last);
      if op == [] {
        assert done + op == done;
        NothingPerformed(w, last);
      } else {
        assert (done + op)[..|done + op| - 1] == done;
        OneMove(w, last, Replay(start, done));
      }
    }
  }

  lemma NothingPerformed(w: World, move: Move)
    requires OpOf(w, move) == []
    ensures Next(w, move).record == w.record && Timely(w, move) && !move.Archive?
  {
  }

  /** While the orchestrator stays in one cycle, so does everything. */
  predicate InOneCycle(start: Record, moves: seq<Move>) {
    forall i :: 0 <= i < |moves| ==> !moves[i].Archive? && (moves[i].Central? ==> moves[i].doc.cycle == start.doc.cycle)
  }

  predicate HeldInCycle(w: World, cycle: string) {
    w.record.doc.cycle == cycle && forall id :: id in w.threads && w.threads[id].Holding? ==> w.threads[id].seen.cycle == cycle
  }

  lemma NextHeldInCycle(w: World, move: Move, cycle: string)
    requires HeldInCycle(w, cycle) && !move.Archive? && (move.Central? ==> move.doc.cycle == cycle)
    ensures HeldInCycle(Next(w, move), cycle) && Timely(w, move)
  {
  }

  lemma {:induction false} OneCycleIsSequential(start: Record, moves: seq<Move>)
    requires InOneCycle(start, moves)
    ensures HeldInCycle(RunOf(start, moves), start.doc.cycle) && AllTimely(start, moves)
    ensures RunOf(start, moves).record == Replay(start, Performed(start, moves))
  {
    if moves != [] {
      var before, last := moves[..|moves| - 1], moves[|moves| - 1];
      OneCycleIsSequential(start, before);
      NextHeldInCycle(RunOf(start, before), last, start.doc.cycle);
    }
    EveryRunIsSequential(start, moves);
  }

  /** Read in one cycle, and not yet committed when that is archived and the next one opened. */
  function Overtaken(token: Token, request: Request, next: Doc, event: Event): seq<Move> {
    [Present(0, Some(token), request), Read(0), Archive, Central(next, event)]
  }

  lemma JustPresented(token: Token, request: Request, start: Record)
    requires Screen(Some(token), request).None? && request.capability != REPAIR_GRANT
    ensures var w := RunOf(start, [Present(0, Some(token), request)]);
            0 in w.threads && w.threads[0] == Reading(token, request, ATTEMPTS) && w.record == start
    ensures Performed(start, [Present(0, Some(token), request)]) == []
  {
    RunGrows(start, [], Present(0, Some(token), request));
    assert [] + [Present(0, Some(token), request)] == [Present(0, Some(token), request)];
  }

  lemma ReadingOne(w: World, token: Token, request: Request, left: nat)
    requires 0 in w.threads && w.threads[0] == Reading(token, request, left)
    requires Stage(w.record.doc, token, request).Append?
    ensures var after := Next(w, Read(0));
            after.record == w.record && 0 in after.threads && after.threads[0] == Holding(token, request, left, w.record.doc)
    ensures OpOf(w, Read(0)) == []
  {
  }

  lemma JustRead(token: Token, request: Request, start: Record)
    requires Screen(Some(token), request).None? && request.capability != REPAIR_GRANT
    requires Stage(start.doc, token, request).Append?
    ensures var moves := [Present(0, Some(token), request), Read(0)];
            var w := RunOf(start, moves);
            && 0 in w.threads && w.threads[0] == Holding(token, request, ATTEMPTS, start.doc)
            && w.record == start && Performed(start, moves) == []
  {
    var first := [Present(0, Some(token), request)];
    JustPresented(token, request, start);
    RunGrows(start, first, Read(0));
    ReadingOne(RunOf(start, first), token, request, ATTEMPTS);
    assert first + [Read(0)] == [Present(0, Some(token), request), Read(0)];
  }

  lemma ThenArchived(start: Record, before: seq<Move>, next: Doc, event: Event)
    requires Performed(start, before) == []
    ensures var w := RunOf(start, before + [Archive] + [Central(next, event)]);
            w.threads == RunOf(start, before).threads && w.record == Record(next, [event])
    ensures Performed(start, before + [Archive] + [Central(next, event)]) == [Archival, Orchestrator(next, event)]
  {
    RunGrows(start, before, Archive);
    RunGrows(start, before + [Archive], Central(next, event));
    assert [] + [event] == [event] && [] + [Archival] + [Orchestrator(next, event)] == [Archival, Orchestrator(next, event)];
  }

  lemma LateRead(token: Token, request: Request, start: Record, next: Doc, event: Event)
    requires Screen(Some(token), request).None? && request.capability != REPAIR_GRANT
    requires Stage(start.doc, token, request).Append?
    ensures var w := RunOf(start, Overtaken(token, request, next, event));
            && 0 in w.threads && w.threads[0] == Holding(token, request, ATTEMPTS, start.doc)
            && w.record == Record(next, [event])
    ensures Performed(start, Overtaken(token, request, next, event)) == [Archival, Orchestrator(next, event)]
  {
    var before := [Present(0, Some(token), request), Read(0)];
    JustRead(token, request, start);
    ThenArchived(start, before, next, event);
    assert before + [Archive] + [Central(next, event)] == Overtaken(token, request, next, event);
  }

  lemma LateCommit(token: Token, request: Request, start: Record, next: Doc, event: Event, before: seq<Move>)
    requires Stage(start.doc, token, request).Append?
    requires var w := RunOf(start, before);
             && 0 in w.threads && w.threads[0] == Holding(token, request, ATTEMPTS, start.doc)
             && w.record == Record(next, [event]) && Performed(start, before) == [Archival, Orchestrator(next, event)]
    ensures Performed(start, before + [Commit(0)]) == [Archival, Orchestrator(next, event), Leaf(0, token, request)]
    ensures RunOf(start, before + [Commit(0)]).record == Record(next, [event, Stage(start.doc, token, request).event])
  {
    var w := RunOf(start, before);
    RunGrows(start, before, Commit(0));
    assert ThreadLands(w, w.threads[0]);
    assert [event] + [Stage(start.doc, token, request).event] == [event, Stage(start.doc, token, request).event];
  }

  /** A decision read in one cycle and committed after the next was opened: it lands under the old cycle's
      name in the chain that began with the new one, which no order of the three gives. */
  lemma LateDecision(token: Token, request: Request, start: Record, next: Doc, event: Event) returns (moves: seq<Move>)
    requires Screen(Some(token), request).None? && request.capability != REPAIR_GRANT
    requires Stage(start.doc, token, request).Append? && event.cycle == next.cycle != start.doc.cycle
    ensures moves == Overtaken(token, request, next, event) + [Commit(0)]
    ensures RunOf(start, moves).record == Record(next, [event, Stage(start.doc, token, request).event])
    ensures Stage(start.doc, token, request).event.cycle == start.doc.cycle
    ensures Performed(start, moves) == [Archival, Orchestrator(next, event), Leaf(0, token, request)]
    ensures forall ops :: AnOrder(ops, Leaf(0, token, request), Orchestrator(next, event)) ==> RunOf(start, moves).record != Replay(start, ops)
  {
    moves := Overtaken(token, request, next, event) + [Commit(0)];
    LateRead(token, request, start, next, event);
    LateCommit(token, request, start, next, event, Overtaken(token, request, next, event));
    var late := Stage(start.doc, token, request).event;
    forall ops | AnOrder(ops, Leaf(0, token, request), Orchestrator(next, event))
      ensures Record(next, [event, late]) != Replay(start, ops)
    {
      InAnyOrder(start, ops, token, request, next, event);
      assert [event, late][1] == late;
    }
  }

  /** The leaf before the archive, behind it, or last. */
  predicate AnOrder(ops: seq<Op>, leaf: Op, central: Op) {
    ops == [leaf, Archival, central] || ops == [Archival, leaf, central] || ops == [Archival, central, leaf]
  }

  lemma ReplayOfThree(start: Record, ops: seq<Op>)
    requires |ops| == 3
    ensures Replay(start, ops) == Perform(Perform(Perform(start, ops[0]), ops[1]), ops[2])
  {
    assert ops[..2][..1] == ops[..1] && ops[..1][..0] == [];
    assert Replay(start, ops[..1]) == Perform(start, ops[0]);
    assert Replay(start, ops[..2]) == Perform(Perform(start, ops[0]), ops[1]);
  }

  /** The request performed before the next cycle is open names none in its chain, and performed behind
      its first event it names that cycle. */
  lemma InAnyOrder(start: Record, ops: seq<Op>, token: Token, request: Request, next: Doc, event: Event)
    requires Stage(start.doc, token, request).Append? && AnOrder(ops, Leaf(0, token, request), Orchestrator(next, event))
    requires event.cycle == next.cycle != start.doc.cycle
    ensures forall e :: e in Replay(start, ops).events ==> e.cycle == next.cycle
  {
    ReplayOfThree(start, ops);
    AppendsAnywhere(start.doc, next, token, request);
    AppendsAnywhere(start.doc, CLEARED.doc, token, request);
  }

  const SOME_TOKEN: Token := Token("run-1", "T-001", {"event.append"}, "n-1")

  const SOME_REQUEST: Request := Request("event.append", Args("", "", "", "", "", None), "r-1")

  /** For example a note appended as c-1 gives way to c-2. */
  lemma ALateNote() returns (start: Record, moves: seq<Move>)
    ensures RunOf(start, moves).record != Replay(start, Performed(start, moves))
  {
    start := Record(Doc("c-1", map[], ""), []);
    assert "c-1"[2] != "c-2"[2];
    assert Screen(Some(SOME_TOKEN), SOME_REQUEST).None?;
    var next, event := Doc("c-2", map[], ""), Event("cycle_initialized", "c-2", "", "");
    moves := LateDecision(SOME_TOKEN, SOME_REQUEST, start, next, event);
    assert AnOrder(Performed(start, moves), Leaf(0, SOME_TOKEN, SOME_REQUEST), Orchestrator(next, event));
  }

  lemma RunGrows(start: Record, moves: seq<Move>, move: Move)
    ensures RunOf(start, moves + [move]) == Next(RunOf(start, moves), move)
    ensures Performed(start, moves + [move]) == Performed(start, moves) + OpOf(RunOf(start, moves), move)
  {
    assert (moves + [move])[..|moves|] == moves;
  }

  predicate PerformedBy(ops: seq<Op>, i: int, id: nat) {
    0 <= i < |ops| && ops[i].Leaf? && ops[i].id == id
  }

  predicate ToldRecorded(w: World, id: nat) {
    id in w.threads && w.threads[id].Answered? && w.threads[id].answer == Recorded
  }

  ghost predicate PerformedOnce(w: World, ops: seq<Op>, id: nat) {
    && (ToldRecorded(w, id) <==> exists i :: PerformedBy(ops, i, id))
    && (forall i, j :: PerformedBy(ops, i, id) && PerformedBy(ops, j, id) ==> i == j)
    && (forall i :: PerformedBy(ops, i, id) ==> ToldRecorded(w, id) && ops[i] == Leaf(id, w.threads[id].token, w.threads[id].request))
  }

  lemma NextPerformsOnce(w: World, ops: seq<Op>, move: Move, id: nat)
    requires PerformedOnce(w, ops, id)
    ensures PerformedOnce(Next(w, move), ops + OpOf(w, move), id)
  {
    var op, after := OpOf(w, move), Next(w, move);
    forall i {:trigger PerformedBy(ops + op, i, id)}
      ensures PerformedBy(ops + op, i, id) <==> PerformedBy(ops, i, id) || (i == |ops| && PerformedBy(op, 0, id))
    {
    }
    if i :| PerformedBy(ops, i, id) {
      assert PerformedBy(ops + op, i, id);
      assert after.threads[id] == w.threads[id];
    } else if PerformedBy(op, 0, id) {
      assert PerformedBy(ops + op, |ops|, id);
    } else {
      assert !ToldRecorded(after, id);
    }
  }

  /** A connection told its request was recorded had it performed once, and no other had its own
      performed at all. */
  lemma {:induction false} RecordedExactlyOnce(start: Record, moves: seq<Move>, id: nat)
    ensures PerformedOnce(RunOf(start, moves), Performed(start, moves), id)
  {
    if moves != [] {
      RecordedExactlyOnce(start, moves[..|moves| - 1], id);
      NextPerformsOnce(RunOf(start, moves[..|moves| - 1]), Performed(start, moves[..|moves| - 1]), moves[|moves| - 1], id);
    }
  }

  // ---- how often a write is tried ------------------------------------------------------------------------

  /** How often the connection came to its commit and found the document another than it had read. */
  function Losses(start: Record, moves: seq<Move>, id: nat): nat {
    if moves == [] then 0
    else
      var before, last := moves[..|moves| - 1], moves[|moves| - 1];
      var w := RunOf(start, before);
      Losses(start, before, id) +
      if last == Commit(id) && id in w.threads && w.threads[id].Holding? && !ThreadLands(w, w.threads[id]) then 1 else 0
  }

  /** A connection that goes on has lost fewer than five times, and one told so has lost five. */
  predicate Counted(w: World, id: nat, losses: nat) {
    && (id !in w.threads ==> losses == 0)
    && (id in w.threads && (w.threads[id].Reading? || w.threads[id].Holding?) ==> w.threads[id].left == 5 - losses && losses < 5)
    && (ToldLost(w, id) <==> losses == 5)
  }

  predicate ToldLost(w: World, id: nat) {
    id in w.threads && w.threads[id].Answered? && w.threads[id].answer == Denied(Stale)
  }

  lemma NextIsCounted(w: World, move: Move, id: nat, losses: nat)
    requires Counted(w, id, losses) && losses <= 5
    ensures var lost := if move == Commit(id) && id in w.threads && w.threads[id].Holding? && !ThreadLands(w, w.threads[id]) then 1 else 0;
            Counted(Next(w, move), id, losses + lost) && losses + lost <= 5
  {
    match move
    case Present(i, token, request) =>
    case Read(i) =>
      if i == id && i in w.threads && w.threads[i].Reading? {
        NeverStaleByItself(w.record.doc, w.threads[i].token, w.threads[i].request);
      }
    case Commit(i) =>
    case Central(_, _) =>
    case Archive =>
    case Restart =>
  }

  lemma NeverStaleByItself(doc: Doc, token: Token, request: Request)
    ensures Stage(doc, token, request) != Refused(Stale)
  {
  }

  /** A request is answered that the race was lost exactly when its commit was overtaken five times. */
  lemma {:induction false} StaleAfterFive(start: Record, moves: seq<Move>, id: nat)
    ensures Counted(RunOf(start, moves), id, Losses(start, moves, id)) && Losses(start, moves, id) <= 5
  {
    if moves != [] {
      var before, last := moves[..|moves| - 1], moves[|moves| - 1];
      StaleAfterFive(start, before, id);
      NextIsCounted(RunOf(start, before), last, id, Losses(start, before, id));
    }
  }

  // ---- each pair once -----------------------------------------------------------------------------------

  predicate Admitted(w: World, id: nat) {
    id in w.threads && !w.threads[id].TurnedAway?
  }

  function KeyOf(t: Thread): string
    requires !t.TurnedAway?
  {
    NonceKey(t.token.nonce, t.request.nonce)
  }

  /** Admitted by the server as it now runs. */
  predicate AdmittedNow(w: World, id: nat) {
    Admitted(w, id) && id in w.eras && w.eras[id] == w.era
  }

  predicate Dated(w: World, id: nat) {
    (id in w.eras <==> id in w.threads) && (id in w.eras ==> w.eras[id] <= w.era) && (AdmittedNow(w, id) ==> KeyOf(w.threads[id]) in w.nonces)
  }

  ghost predicate Spent(w: World, key: string) {
    exists id :: AdmittedNow(w, id) && KeyOf(w.threads[id]) == key
  }

  predicate Apart(w: World, i: nat, j: nat) {
    (&& Admitted(w, i) && Admitted(w, j) && i in w.eras && j in w.eras && w.eras[i] == w.eras[j]
     && KeyOf(w.threads[i]) == KeyOf(w.threads[j])) ==> i == j
  }

  /** The nonces seen are those of the connections this life of the server admitted, and no two of one
      life share a key. */
  ghost predicate Claimed(w: World) {
    && (forall id {:trigger Dated(w, id)} :: Dated(w, id))
    && (forall key {:trigger Spent(w, key)} :: key in w.nonces ==> Spent(w, key))
    && (forall i, j {:trigger Apart(w, i, j)} :: Apart(w, i, j))
  }

  lemma PresentingKeepsClaims(w: World, id: nat, token: Option<Token>, request: Request)
    requires Claimed(w) && id !in w.threads
    ensures Claimed(Next(w, Present(id, token, request)))
  {
    var after := Next(w, Present(id, token, request));
    forall k {:trigger Dated(after, k)} ensures Dated(after, k) {
      assert Dated(w, k);
    }
    forall key {:trigger Spent(after, key)} | key in after.nonces ensures Spent(after, key) {
      if key in w.nonces {
        assert Spent(w, key);
        var k :| AdmittedNow(w, k) && KeyOf(w.threads[k]) == key;
        assert AdmittedNow(after, k);
      } else {
        assert AdmittedNow(after, id);
      }
    }
    forall i, j {:trigger Apart(after, i, j)} ensures Apart(after, i, j) {
      assert Apart(w, i, j) && Dated(w, i) && Dated(w, j);
    }
  }

  /** The connection stays admitted, or not, for the same key and of the same life. */
  predicate SameClaim(w: World, after: World, id: nat) {
    && (Admitted(after, id) <==> Admitted(w, id))
    && (Admitted(w, id) ==> KeyOf(after.threads[id]) == KeyOf(w.threads[id]))
  }

  lemma KeepingClaims(w: World, after: World)
    requires Claimed(w) && after.eras == w.eras && after.threads.Keys == w.threads.Keys
    requires (after.era == w.era && after.nonces == w.nonces) || (after.era == w.era + 1 && after.nonces == {})
    requires forall id {:trigger SameClaim(w, after, id)} :: SameClaim(w, after, id)
    ensures Claimed(after)
  {
    forall k {:trigger Dated(after, k)} ensures Dated(after, k) {
      assert Dated(w, k) && SameClaim(w, after, k);
    }
    forall key {:trigger Spent(after, key)} | key in after.nonces ensures Spent(after, key) {
      assert Spent(w, key);
      var k :| AdmittedNow(w, k) && KeyOf(w.threads[k]) == key;
      assert SameClaim(w, after, k) && AdmittedNow(after, k);
    }
    forall i, j {:trigger Apart(after, i, j)} ensures Apart(after, i, j) {
      assert Apart(w, i, j) && SameClaim(w, after, i) && SameClaim(w, after, j);
    }
  }

  lemma StepKeepsClaim(w: World, move: Move, id: nat)
    requires !(move.Present? && move.id !in w.threads)
    ensures SameClaim(w, Next(w, move), id)
  {
  }

  lemma NextKeepsClaims(w: World, move: Move)
    requires Claimed(w)
    ensures Claimed(Next(w, move))
  {
    if move.Present? && move.id !in w.threads {
      PresentingKeepsClaims(w, move.id, move.token, move.request);
    } else {
      forall id {:trigger SameClaim(w, Next(w, move), id)} ensures SameClaim(w, Next(w, move), id) {
        StepKeepsClaim(w, move, id);
      }
      KeepingClaims(w, Next(w, move));
    }
  }

  lemma {:induction false} EveryRunKeepsClaims(start: Record, moves: seq<Move>)
    ensures Claimed(RunOf(start, moves))
  {
    if moves != [] {
      EveryRunKeepsClaims(start, moves[..|moves| - 1]);
      NextKeepsClaims(RunOf(start, moves[..|moves| - 1]), moves[|moves| - 1]);
    }
  }

  /** The p-th move is the one that presents the connection. */
  predicate Presents(start: Record, moves: seq<Move>, p: int, id: nat) {
    0 <= p < |moves| && moves[p].Present? && moves[p].id == id && id !in RunOf(start, moves[..p]).threads
  }

  lemma NextDates(w: World, move: Move, id: nat)
    requires Claimed(w) && id in Next(w, move).threads
    ensures id in w.threads ==> id in w.eras && id in Next(w, move).eras && Next(w, move).eras[id] == w.eras[id]
    ensures id !in w.threads ==> move.Present? && move.id == id && id in Next(w, move).eras && Next(w, move).eras[id] == w.era
  {
    assert Dated(w, id);
  }

  /** A connection was presented by one move, in the life of the server that then ran. */
  lemma {:induction false} PresentedSomewhere(start: Record, moves: seq<Move>, id: nat) returns (p: nat)
    requires id in RunOf(start, moves).threads
    ensures Presents(start, moves, p, id)
    ensures id in RunOf(start, moves).eras && RunOf(start, moves).eras[id] == RunOf(start, moves[..p]).era
  {
    var before, last := moves[..|moves| - 1], moves[|moves| - 1];
    EveryRunKeepsClaims(start, before);
    NextDates(RunOf(start, before), last, id);
    if id in RunOf(start, before).threads {
      p := PresentedSomewhere(start, before, id);
      assert moves[..p] == before[..p];
    } else {
      p := |moves| - 1;
    }
  }

  /** Between two lives of the server there is a restart. */
  lemma {:induction false} RestartBetween(start: Record, moves: seq<Move>, p: nat, q: nat) returns (r: nat)
    requires p <= q <= |moves| && RunOf(start, moves[..p]).era != RunOf(start, moves[..q]).era
    ensures p <= r < q && IsRestart(moves, r)
    decreases q
  {
    assert moves[..q][..q - 1] == moves[..q - 1];
    if RunOf(start, moves[..q - 1]).era == RunOf(start, moves[..q]).era {
      r := RestartBetween(start, moves, p, q - 1);
    } else {
      r := q - 1;
    }
  }

  /** In every run, a (token nonce, request nonce) pair is accepted once in a life of the server: a pair
      accepted twice has a restart between the two. */
  lemma EachPairAcceptedOnce(start: Record, moves: seq<Move>, i: nat, j: nat)
    requires Admitted(RunOf(start, moves), i) && Admitted(RunOf(start, moves), j) && i != j
    requires RunOf(start, moves).threads[i].token.nonce == RunOf(start, moves).threads[j].token.nonce
    requires RunOf(start, moves).threads[i].request.nonce == RunOf(start, moves).threads[j].request.nonce
    ensures RestartedBetween(start, moves, i, j) || RestartedBetween(start, moves, j, i)
  {
    EveryRunKeepsClaims(start, moves);
    assert Apart(RunOf(start, moves), i, j);
    var p := PresentedSomewhere(start, moves, i);
    var q := PresentedSomewhere(start, moves, j);
    if p <= q {
      var r := RestartBetween(start, moves, p, q);
      assert RestartedBetween(start, moves, i, j);
    } else {
      var r := RestartBetween(start, moves, q, p);
      assert RestartedBetween(start, moves, j, i);
    }
  }

  /** The first was presented, the server started again, and then the second was presented. */
  ghost predicate RestartedBetween(start: Record, moves: seq<Move>, first: nat, second: nat) {
    exists p, r, q :: Presents(start, moves, p, first) && IsRestart(moves, r) && Presents(start, moves, q, second) && p < r < q
  }

  predicate IsRestart(moves: seq<Move>, r: int) {
    0 <= r < |moves| && moves[r].Restart?
  }

  /** And with one it is accepted twice: the key outlives the nonces. */
  lemma AcceptedAgainAfterRestart(start: Record, token: Token, request: Request)
    requires Screen(Some(token), request).None?
    ensures var w := RunOf(start, [Present(0, Some(token), request), Restart, Present(1, Some(token), request)]);
            Admitted(w, 0) && Admitted(w, 1) && w.threads[0].token == w.threads[1].token && w.threads[0].request == w.threads[1].request
  {
    var first, second, third := Present(0, Some(token), request), Restart, Present(1, Some(token), request);
    var moves := [first, second, third];
    assert moves[..2] == [first, second] && [first, second][..1] == [first] && [first][..0] == [];
    assert RunOf(start, [first]) == Next(World(start, {}, map[], 0, map[]), first);
    assert RunOf(start, [first, second]) == Next(RunOf(start, [first]), second);
  }

  /** For example the note above. */
  lemma ANoteTwice(start: Record) returns (moves: seq<Move>)
    ensures Admitted(RunOf(start, moves), 0) && Admitted(RunOf(start, moves), 1)
    ensures RunOf(start, moves).threads[0].token == RunOf(start, moves).threads[1].token
    ensures RunOf(start, moves).threads[0].request == RunOf(start, moves).threads[1].request
  {
    assert Screen(Some(SOME_TOKEN), SOME_REQUEST).None?;
    moves := [Present(0, Some(SOME_TOKEN), SOME_REQUEST), Restart, Present(1, Some(SOME_TOKEN), SOME_REQUEST)];
    AcceptedAgainAfterRestart(start, SOME_TOKEN, SOME_REQUEST);
  }

  /** And with token nonces that hold no separator, as the ones the orchestrator mints, a request is
      taken for a replay exactly when its own pair was accepted before, in this life of the server. */
  lemma OnlyReplaysAreReplays(start: Record, moves: seq<Move>, id: nat, token: Token, request: Request)
    requires Screen(Some(token), request).None? && ':' !in token.nonce
    requires forall k :: Admitted(RunOf(start, moves), k) ==> ':' !in RunOf(start, moves).threads[k].token.nonce
    ensures Presented(RunOf(start, moves), id, Some(token), request) == TurnedAway(Replayed)
            <==> exists first :: AcceptedAs(RunOf(start, moves), first, token, request)
  {
    EveryRunKeepsClaims(start, moves);
    var w := RunOf(start, moves);
    var key := NonceKey(token.nonce, request.nonce);
    if key in w.nonces {
      assert Spent(w, key);
      var first :| AdmittedNow(w, first) && KeyOf(w.threads[first]) == key;
      KeyTellsPairsApart(w.threads[first].token.nonce, w.threads[first].request.nonce, token.nonce, request.nonce);
      assert AcceptedAs(w, first, token, request);
    }
    if first :| AcceptedAs(w, first, token, request) {
      assert Dated(w, first);
    }
  }

  /** This life of the server accepted the connection, and with this pair. */
  predicate AcceptedAs(w: World, first: nat, token: Token, request: Request) {
    AdmittedNow(w, first) && w.threads[first].token.nonce == token.nonce && w.threads[first].request.nonce == request.nonce
  }

  /** What got past the screen: granted by its own token, and nothing central, whatever the token says. */
  predicate Entitled(t: Thread) {
    t.TurnedAway? || (&& t.request.capability in {"decision.declare", "knowledge_gap.create", "task.status", "event.append", "scope.repair"}
                      && t.request.capability in t.token.capabilities && t.request.nonce != "")
  }

  /** In every run, a request that was admitted asked for no more than its token grants. */
  lemma {:induction false} OnlyTheEntitledAreAdmitted(start: Record, moves: seq<Move>, id: nat)
    ensures id in RunOf(start, moves).threads ==> Entitled(RunOf(start, moves).threads[id])
  {
    if moves != [] {
      OnlyTheEntitledAreAdmitted(start, moves[..|moves| - 1], id);
    }
  }

  /** A report a connection of a run was told was recorded: its task was in progress and is now what the
      report says, the report is kept with it, and the chain ends with the event. */
  lemma RecordedReport(w: World, id: nat) returns (task: string)
    requires id in w.threads && w.threads[id].Holding? && ToldRecorded(Next(w, Commit(id)), id)
    requires w.threads[id].request.capability == "task.status"
    ensures var t, after := w.threads[id], Next(w, Commit(id)).record;
            && IsAbout(t.token, t.request, task) && t.request.args.report.Some?
            && task in w.record.doc.tasks && w.record.doc.tasks[task].status == InProgress && task in after.doc.tasks
            && var outcome := t.request.args.report.value.outcome;
            && (after.doc.tasks[task].status == InProgress <==> outcome == Implemented)
            && (after.doc.tasks[task].status == Blocked <==> outcome == CannotGoOn)
            && (after.doc.tasks[task].status == NeedsRevision <==> outcome == PlanIsWrong)
            && after.doc.tasks[task].report == t.request.args.report
            && after.events == w.record.events + [Event(
                 match outcome case Implemented => "task_started" case CannotGoOn => "task_failed" case PlanIsWrong => "knowledge_gap",
                 w.record.doc.cycle, task, t.token.runId)]
  {
    var t := w.threads[id];
    assert ThreadLands(w, t);
    task := if t.token.taskId != "" then t.token.taskId else t.request.args.task;
    LandsAsAtomicExactly(w.record, t.seen, t.token, t.request);
    ReportIsRecorded(w.record, t.token, t.request, task);
  }

  // ---- the scheduler does not notice ----------------------------------------------------------------------

  function Joined(t: Task, doc: Doc): Task {
    t.(status := doc.Of(t.id).status, blockedBy := t.blockedBy + doc.Of(t.id).after)
  }

  function JoinedTasks(tasks: seq<Task>, doc: Doc): seq<Task> {
    if tasks == [] then [] else JoinedTasks(tasks[..|tasks| - 1], doc) + [Joined(tasks[|tasks| - 1], doc)]
  }

  /** The plan's structure and the document's status. */
  function Join(plan: Graph, doc: Doc): Graph {
    Graph(JoinedTasks(plan.tasks, doc), map x | x in plan.byId :: Joined(plan.byId[x], doc))
  }

  /** The two documents agree on what is todo, what is done, and what waits for what. */
  ghost predicate SameToScheduler(a: Doc, b: Doc) {
    forall x: string ::
      && a.Of(x).after == b.Of(x).after
      && (a.Of(x).status == Todo <==> b.Of(x).status == Todo)
      && (a.Of(x).status == Done <==> b.Of(x).status == Done)
  }

  lemma SameStart(plan: Graph, t: Task, a: Doc, b: Doc)
    requires SameToScheduler(a, b) && plan.Valid()
    ensures CanStart(Join(plan, a), Joined(t, a)) <==> CanStart(Join(plan, b), Joined(t, b))
  {
    var g, h := Join(plan, a), Join(plan, b);
    assert a.Of(t.id).after == b.Of(t.id).after;
    forall d | d in plan.byId ensures g.byId[d].status == Done <==> h.byId[d].status == Done {
      assert a.Of(plan.byId[d].id).after == b.Of(plan.byId[d].id).after;
    }
  }

  lemma {:induction false} SameStartable(plan: Graph, tasks: seq<Task>, a: Doc, b: Doc)
    requires SameToScheduler(a, b) && plan.Valid()
    ensures Startable(Join(plan, a), JoinedTasks(tasks, a)) == Startable(Join(plan, b), JoinedTasks(tasks, b))
  {
    if tasks != [] {
      var rest, last := tasks[..|tasks| - 1], tasks[|tasks| - 1];
      SameStartable(plan, rest, a, b);
      SameStart(plan, last, a, b);
      assert JoinedTasks(tasks, a)[..|JoinedTasks(tasks, a)| - 1] == JoinedTasks(rest, a);
      assert JoinedTasks(tasks, b)[..|JoinedTasks(tasks, b)| - 1] == JoinedTasks(rest, b);
    }
  }

  lemma SameFrontier(plan: Graph, a: Doc, b: Doc)
    requires SameToScheduler(a, b) && plan.Valid()
    ensures Frontier.Frontier(Join(plan, a)) == Frontier.Frontier(Join(plan, b))
  {
    SameStartable(plan, plan.tasks, a, b);
  }

  /** What a connection's step does to the document: nothing, or its own task moved on from in-progress. */
  lemma StepNarrows(w: World, move: Move)
    requires !move.Central? && !move.Archive?
    ensures Next(w, move).record.doc == w.record.doc
            || (move.Commit? && Admitted(w, move.id) &&
                exists task :: Narrows(w.record.doc, Next(w, move).record.doc, task)
                               && (w.threads[move.id].token.taskId != "" ==> task == w.threads[move.id].token.taskId))
  {
    if move.Commit? && move.id in w.threads && w.threads[move.id].Holding? && ThreadLands(w, w.threads[move.id]) {
      var t := w.threads[move.id];
      LandsAsAtomicExactly(w.record, t.seen, t.token, t.request);
      AtomicNarrows(w.record, t.token, t.request);
    }
  }

  lemma NarrowingIsSame(a: Doc, b: Doc, task: string)
    requires Narrows(a, b, task)
    ensures SameToScheduler(a, b)
  {
  }

  /** However many leaves report in whatever order, nothing that could not start may start now, and
      nothing that could may not. */
  lemma {:induction false} LeavesLeaveTheFrontier(start: Record, moves: seq<Move>, more: seq<Move>, plan: Graph)
    requires plan.Valid() && forall i :: 0 <= i < |more| ==> !more[i].Central? && !more[i].Archive?
    ensures SameToScheduler(RunOf(start, moves).record.doc, RunOf(start, moves + more).record.doc)
    ensures Frontier.Frontier(Join(plan, RunOf(start, moves).record.doc)) == Frontier.Frontier(Join(plan, RunOf(start, moves + more).record.doc))
  {
    if more == [] {
      assert moves + more == moves;
    } else {
      var less, last := more[..|more| - 1], more[|more| - 1];
      assert (moves + more)[..|moves + more| - 1] == moves + less;
      LeavesLeaveTheFrontier(start, moves, less, plan);
      var w := RunOf(start, moves + less);
      StepNarrows(w, last);
      if Next(w, last).record.doc != w.record.doc {
        var task :| Narrows(w.record.doc, Next(w, last).record.doc, task);
        NarrowingIsSame(w.record.doc, Next(w, last).record.doc, task);
      }
    }
    SameFrontier(plan, RunOf(start, moves).record.doc, RunOf(start, moves + more).record.doc);
  }
}
