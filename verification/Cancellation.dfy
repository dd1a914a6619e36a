/** A token that another thread trips, racing the launches bound to it (src/rein/common.py). */
module Cancellation {

  // ---- the token, under its lock ---------------------------------------------------------------

  /** What the operating system was asked to kill. */
  class Processes {
    var killed: set<nat>

    constructor ()
      ensures killed == {}
    {
      killed := {};
    }
  }

  class Token {
    var procs: set<nat>
    var cancelled: bool

    constructor ()
      ensures procs == {} && !cancelled
    {
      procs, cancelled := {}, false;
    }

    /** `_attach`: take the launch; false when the token was already tripped. */
    method Attach(proc: nat) returns (ok: bool)
      modifies this`procs
      ensures procs == old(procs) + {proc} && ok == !cancelled
      ensures forall w: World {:trigger Next(w, Move.Attach(proc))} ::
                w.procs == old(procs) && w.cancelled == cancelled && w.At(proc, Started) ==>
                  var after := Next(w, Move.Attach(proc));
                  after.procs == procs && after.cancelled == cancelled && after.At(proc, if ok then Waiting else Refused)
    {
      procs := procs + {proc};
      ok := !cancelled;
    }

    /** `_detach`. */
    method Detach(proc: nat)
      modifies this`procs
      ensures procs == old(procs) - {proc}
      ensures forall w: World {:trigger Next(w, Move.Detach(proc))} ::
                w.procs == old(procs) && w.cancelled == cancelled && proc in w.launches && w.launches[proc].Leaving? ==>
                  Next(w, Move.Detach(proc)).procs == procs && Next(w, Move.Detach(proc)).cancelled == cancelled
    {
      procs := procs - {proc};
    }

    /** The part of `cancel` under the lock. */
    method Trip() returns (held: set<nat>)
      modifies this`cancelled
      ensures cancelled && held == procs
      ensures forall w: World, c: nat {:trigger Next(w, Move.Trip(c))} ::
                w.procs == procs && c !in w.cancels ==>
                  Next(w, Move.Trip(c)).cancelled == cancelled && Next(w, Move.Trip(c)).procs == procs && Next(w, Move.Trip(c)).cancels[c] == held
    {
      cancelled := true;
      held := procs;
    }

    /** `cancel`, when nothing runs beside it: every launch held is killed. */
    method Cancel(os: Processes)
      modifies this`cancelled, os
      ensures cancelled && procs == old(procs) && os.killed == old(os.killed) + procs
    {
      var held := Trip();
      while held != {}
        invariant cancelled && procs == old(procs) && held <= procs && os.killed == old(os.killed) + (procs - held)
        decreases |held|
      {
        var proc :| proc in held;
        os.killed := os.killed + {proc};
        held := held - {proc};
      }
    }
  }

  // ---- every interleaving --------------------------------------------------------------------------

  /** Dropped: an interrupt came while another exception was being handled, before that one's kill. */
  datatype Answer = Output | CancelledByCaller | TimedOut | Raised | Dropped

  /** Where a launch's own thread is. Refused: the attach said no, and the kill is still to come.
      Expired and Interrupted: so is theirs. */
  datatype Phase =
    | Started | Refused | Waiting | Collected | Expired | Draining | Interrupted
    | Leaving(answer: Answer) | Left(answer: Answer)

  datatype World = World(
    procs: set<nat>,
    cancelled: bool,
    launches: map<nat, Phase>,
    ended: set<nat>,
    killed: set<nat>,
    cancels: map<nat, set<nat>>) // for each call of `cancel`, the launches it still has to kill
  {
    predicate At(l: nat, phase: Phase) {
      l in launches && launches[l] == phase
    }

    function To(l: nat, phase: Phase): World {
      this.(launches := launches[l := phase])
    }

    predicate Over(l: nat) {
      l in ended || l in killed
    }
  }

  const INITIAL: World := World({}, false, map[], {}, {}, map[])

  datatype Move =
    | Start(l: nat)
    | Attach(l: nat)
    | KillOwn(l: nat)
    | End(l: nat)
    | Collect(l: nat)
    | Expire(l: nat)
    | Interrupt(l: nat)
    | Abandon(l: nat)
    | Check(l: nat)
    | Detach(l: nat)
    | Trip(c: nat)
    | KillHeld(c: nat, l: nat)

  function Next(w: World, move: Move): World {
    match move
    case Start(l) => if l in w.launches then w else w.To(l, Started)
    case Attach(l) =>
      if w.At(l, Started) then w.To(l, if w.cancelled then Refused else Waiting).(procs := w.procs + {l}) else w
    case KillOwn(l) =>
      if w.At(l, Refused) then w.To(l, Waiting).(killed := w.killed + {l})
      else if w.At(l, Expired) then w.To(l, Draining).(killed := w.killed + {l})
      else if w.At(l, Interrupted) then w.To(l, Leaving(Raised)).(killed := w.killed + {l})
      else w
    case End(l) => if l in w.launches then w.(ended := w.ended + {l}) else w
    case Collect(l) =>
      // `communicate` comes back only when the process is over.
      if w.At(l, Waiting) && w.Over(l) then w.To(l, Collected)
      else if w.At(l, Draining) && w.Over(l) then w.To(l, Leaving(TimedOut))
      else w
    case Expire(l) => if w.At(l, Waiting) then w.To(l, Expired) else w
    case Interrupt(l) => if w.At(l, Waiting) || w.At(l, Collected) then w.To(l, Interrupted) else w
    case Abandon(l) =>
      // In a handler nothing catches the interrupt: what is left of it does not happen.
      if w.At(l, Expired) || w.At(l, Interrupted) then w.To(l, Leaving(Dropped))
      else if w.At(l, Draining) then w.To(l, Leaving(Raised))
      else w
    case Check(l) =>
      if w.At(l, Collected) then w.To(l, Leaving(if w.cancelled then CancelledByCaller else Output)) else w
    case Detach(l) =>
      if l in w.launches && w.launches[l].Leaving? then w.To(l, Left(w.launches[l].answer)).(procs := w.procs - {l}) else w
    case Trip(c) =>
      if c in w.cancels then w else w.(cancelled := true, cancels := w.cancels[c := w.procs])
    case KillHeld(c, l) =>
      if c in w.cancels && l in w.cancels[c] then
        w.(killed := w.killed + {l}, cancels := w.cancels[c := w.cancels[c] - {l}])
      else w
  }

  function RunOf(moves: seq<Move>): World {
    if moves == [] then INITIAL else Next(RunOf(moves[..|moves| - 1]), moves[|moves| - 1])
  }

  /** The launch is past its attach check, and past the kill that a refused attach brings. */
  predicate PastCheck(w: World, l: nat) {
    l in w.launches && !w.launches[l].Started? && !w.launches[l].Refused?
  }

  predicate Finished(w: World, c: nat) {
    c in w.cancels && w.cancels[c] == {}
  }

  /** The thread dropped its kill, and is past its detach. */
  predicate LeftDropped(w: World, l: nat) {
    w.At(l, Left(Dropped))
  }

  /** The token holds exactly the launches between attach and detach, and one that left is over unless
      its kill was dropped. */
  predicate Held(w: World, l: nat) {
    && (l in w.procs <==> l in w.launches && !w.launches[l].Started? && !w.launches[l].Left?)
    && (l in w.launches && (w.launches[l].Collected? || w.launches[l].Draining?) ==> w.Over(l))
    && (l in w.launches && (w.launches[l].Leaving? || w.launches[l].Left?) && w.launches[l].answer != Dropped ==> w.Over(l))
  }

  /** Each call of `cancel` still has the launch to kill, or need not, or never saw it. */
  predicate Answered(w: World, c: nat, l: nat) {
    c in w.cancels && PastCheck(w, l) ==> w.Over(l) || l in w.cancels[c] || LeftDropped(w, l)
  }

  ghost predicate Safe(w: World) {
    && (forall l :: Held(w, l))
    && (forall c, l {:trigger Answered(w, c, l)} :: Answered(w, c, l))
    && (w.cancels != map[] ==> w.cancelled)
  }

  lemma NextIsHeld(w: World, move: Move, l: nat)
    requires Held(w, l)
    ensures Held(Next(w, move), l)
  {
  }

  lemma NextIsAnswered(w: World, move: Move, c: nat, l: nat)
    requires Held(w, l) && Answered(w, c, l) && (c in w.cancels ==> w.cancelled)
    ensures Answered(Next(w, move), c, l)
  {
  }

  lemma NextIsSafe(w: World, move: Move)
    requires Safe(w)
    ensures Safe(Next(w, move))
  {
    var after := Next(w, move);
    forall l ensures Held(after, l) {
      NextIsHeld(w, move, l);
    }
    forall c, l {:trigger Answered(after, c, l)} ensures Answered(after, c, l) {
      assert Answered(w, c, l) && Held(w, l);
      assert c in w.cancels ==> w.cancels != map[];
      NextIsAnswered(w, move, c, l);
    }
    assert move.KillHeld? && move.c in w.cancels ==> w.cancels != map[];
  }

  lemma {:induction false} EveryRunIsSafe(moves: seq<Move>)
    ensures Safe(RunOf(moves))
  {
    if moves != [] {
      EveryRunIsSafe(moves[..|moves| - 1]);
      NextIsSafe(RunOf(moves[..|moves| - 1]), moves[|moves| - 1]);
    }
  }

  /** In every interleaving, once a call of `cancel` has finished and a launch is past its attach check,
      whichever came first, that launch was killed or had ended, or its own thread had dropped its kill
      and let go of it. */
  lemma NoLaunchEscapes(moves: seq<Move>, c: nat, l: nat)
    requires Finished(RunOf(moves), c) && PastCheck(RunOf(moves), l)
    ensures RunOf(moves).Over(l) || LeftDropped(RunOf(moves), l)
  {
    EveryRunIsSafe(moves);
    assert Answered(RunOf(moves), c, l);
  }

  predicate DropsIt(w: World, l: nat) {
    w.At(l, Leaving(Dropped)) || LeftDropped(w, l)
  }

  lemma NextDrops(w: World, move: Move, l: nat)
    requires DropsIt(Next(w, move), l) && !DropsIt(w, l)
    ensures move == Abandon(l) && (w.At(l, Expired) || w.At(l, Interrupted))
  {
  }

  /** A kill is dropped only by an interrupt that comes while a timeout or another interrupt is handled,
      before that one's kill ... */
  lemma {:induction false} DroppedInAHandler(moves: seq<Move>, l: nat) returns (k: nat)
    requires DropsIt(RunOf(moves), l)
    ensures k < |moves| && moves[k] == Abandon(l)
    ensures RunOf(moves[..k]).At(l, Expired) || RunOf(moves[..k]).At(l, Interrupted)
  {
    var before := moves[..|moves| - 1];
    if DropsIt(RunOf(before), l) {
      k := DroppedInAHandler(before, l);
      assert moves[..k] == before[..k];
    } else {
      k := |before|;
      NextDrops(RunOf(before), moves[k], l);
    }
  }

  /** ... so without one, no launch escapes at all. */
  lemma NoLaunchEscapesUnlessDropped(moves: seq<Move>, c: nat, l: nat)
    requires Finished(RunOf(moves), c) && PastCheck(RunOf(moves), l)
    requires forall k :: 0 <= k < |moves| ==> moves[k] != Abandon(l)
    ensures RunOf(moves).Over(l)
  {
    NoLaunchEscapes(moves, c, l);
    if LeftDropped(RunOf(moves), l) {
      var k := DroppedInAHandler(moves, l);
    }
  }

  lemma OneMoveOn(moves: seq<Move>, move: Move)
    ensures RunOf(moves + [move]) == Next(RunOf(moves), move)
  {
    assert (moves + [move])[..|moves|] == moves;
  }

  /** And with one it does: the launch runs on, and `cancel` has nothing to kill. */
  lemma DroppedEscapes() returns (moves: seq<Move>)
    ensures Finished(RunOf(moves), 0) && PastCheck(RunOf(moves), 0) && !RunOf(moves).Over(0)
  {
    moves := [];
    OneMoveOn(moves, Start(0));
    moves := moves + [Start(0)];
    OneMoveOn(moves, Attach(0));
    moves := moves + [Move.Attach(0)];
    OneMoveOn(moves, Expire(0));
    moves := moves + [Expire(0)];
    OneMoveOn(moves, Abandon(0));
    moves := moves + [Abandon(0)];
    OneMoveOn(moves, Detach(0));
    moves := moves + [Move.Detach(0)];
    assert RunOf(moves) == World({}, false, map[0 := Left(Dropped)], {}, {}, map[]);
    OneMoveOn(moves, Trip(0));
    moves := moves + [Move.Trip(0)];
  }

  predicate Answers(w: World, l: nat) {
    l in w.launches && (w.launches[l] == Leaving(Output) || w.launches[l] == Left(Output))
  }

  lemma NextAnswers(w: World, move: Move, l: nat)
    requires w.cancelled
    ensures Next(w, move).cancelled
    ensures Answers(Next(w, move), l) ==> Answers(w, l)
  {
  }

  /** Whatever a launch says after the token was tripped is no answer: no more launches come back with
      output than had by then. */
  lemma {:induction false} NoAnswerAfterTrip(moves: seq<Move>, more: seq<Move>, l: nat)
    requires RunOf(moves).cancelled
    ensures RunOf(moves + more).cancelled
    ensures Answers(RunOf(moves + more), l) ==> Answers(RunOf(moves), l)
  {
    if more == [] {
      assert moves + more == moves;
    } else {
      assert (moves + more)[..|moves + more| - 1] == moves + more[..|more| - 1];
      NoAnswerAfterTrip(moves, more[..|more| - 1], l);
      NextAnswers(RunOf(moves + more[..|more| - 1]), more[|more| - 1], l);
    }
  }
}
