/** The server's nonces and the store's transaction, edited in place as the interleavings step them
    (src/rein/control_plane.py, src/rein/store.py). */
module LeafServer {
  import opened Optional
  import opened LeafProtocol
  import opened LeafRuns

  class ControlServer {
    var seenNonces: set<string>

    constructor ()
      ensures seenNonces == {}
    {
      seenNonces := {};
    }

    /** True the first time this pair is presented; and the step of a connection that presents it. */
    method ClaimNonce(tokenNonce: string, requestNonce: string) returns (first: bool)
      modifies this
      ensures first == (NonceKey(tokenNonce, requestNonce) !in old(seenNonces))
      ensures seenNonces == old(seenNonces) + {NonceKey(tokenNonce, requestNonce)}
      ensures forall w: World, id: nat, token: Token, request: Request {:trigger Next(w, Present(id, Some(token), request))} ::
                w.nonces == old(seenNonces) && id !in w.threads && Screen(Some(token), request).None?
                && token.nonce == tokenNonce && request.nonce == requestNonce ==>
                  var after := Next(w, Present(id, Some(token), request));
                  after.nonces == seenNonces && (after.threads[id] == TurnedAway(Replayed) <==> !first)
    {
      var key := NonceKey(tokenNonce, requestNonce);
      if key in seenNonces {
        return false;
      }
      seenNonces := seenNonces + {key};
      first := true;
    }
  }

  /** An attempt that lost the race: what it read, and what it found at its commit. */
  datatype Lost = Lost(seen: Doc, found: Doc)

  predicate WasLost(lost: Lost, token: Token, request: Request) {
    Stage(lost.seen, token, request).Write? && lost.found != lost.seen
  }

  class Store {
    var record: Record

    constructor (record: Record)
      ensures this.record == record
    {
      this.record := record;
    }

    /** The transaction: a write lands only on the document it was worked out on. It is the step of a
        connection that commits. */
    method Commit(seen: Doc, staged: Staged) returns (ok: bool)
      requires !staged.Refused?
      modifies this
      ensures ok == (staged.Append? || old(record).doc == seen)
      ensures record == if ok then Record(if staged.Write? then staged.doc else old(record).doc, old(record).events + [staged.event])
                        else old(record)
      ensures forall w: World, id: nat {:trigger Next(w, Move.Commit(id))} ::
                w.record == old(record) && id in w.threads && w.threads[id].Holding? && w.threads[id].seen == seen
                && Stage(seen, w.threads[id].token, w.threads[id].request) == staged ==>
                  Next(w, Move.Commit(id)).record == record && (ok <==> ToldRecorded(Next(w, Move.Commit(id)), id))
    {
      if staged.Write? && record.doc != seen {
        return false;
      }
      record := Record(if staged.Write? then staged.doc else record.doc, record.events + [staged.event]);
      ok := true;
    }

    /** `apply_request`: read, work out, commit, and again from the start when the race was lost, five
        times at most. Between the reading and the commit anybody may have written anything. What is
        recorded is worked out on the document last read, and lands on the record as it then stood: the
        request performed there in one piece, but for an append that another cycle overtook. */
    method ApplyRequest(token: Token, request: Request) returns (answer: Answer, seen: Doc, at: Record, ghost lost: seq<Lost>)
      modifies this
      ensures answer == Recorded ==>
                var staged := Stage(seen, token, request);
                && Lands(at, seen, staged) && record == Landed(at, staged)
                && (record == Atomic(at, token, request) <==> staged.Write? || seen.cycle == at.doc.cycle)
      ensures answer.Denied? ==> record == at
      ensures answer.Denied? && answer.why != Stale ==> at.doc == seen && Stage(seen, token, request) == Refused(answer.why)
      ensures answer == Denied(Stale) ==> |lost| == 5
      ensures answer != Denied(Stale) ==> |lost| < 5
      ensures forall i :: 0 <= i < |lost| ==> WasLost(lost[i], token, request)
      ensures !answer.Granted?
    {
      lost := [];
      for remaining := ATTEMPTS downto 0
        invariant |lost| == ATTEMPTS - remaining
        invariant forall i :: 0 <= i < |lost| ==> WasLost(lost[i], token, request)
      {
        seen := record.doc;
        var staged := Stage(seen, token, request);
        if staged.Refused? {
          return Denied(staged.why), seen, record, lost;
        }
        record := *;
        at := record;
        var ok := Commit(seen, staged);
        if ok {
          LandsAsAtomicExactly(at, seen, token, request);
          return Recorded, seen, at, lost;
        }
        lost := lost + [Lost(seen, at.doc)];
        record := *;
      }
      return Denied(Stale), record.doc, record, lost;
    }
  }
}
