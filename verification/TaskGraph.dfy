/** The validated task graph and its dependency chains (src/rein/dag.py). */
module TaskGraph {
  import opened Ids
  import opened Scopes

  datatype Status = Todo | InProgress | Done | Blocked | NeedsRevision | AwaitingEvidence

  datatype Criterion = Criterion(id: string, statement: string)

  /** What the frozen plan says of a task besides its edges. */
  datatype Entry = Entry(
    foundation: bool,
    issue: string,
    byAgent: bool,
    irreversible: bool,
    attemptMax: nat,
    operates: bool,
    hasPreconditions: bool,
    unbundled: string,
    env: seq<(string, string)>,
    allow: seq<string>,
    scope: Scope,
    acceptance: seq<Criterion>)

  datatype Task = Task(id: Id, blockedBy: seq<Id>, status: Status, entry: Entry)

  datatype Graph = Graph(tasks: seq<Task>, byId: map<Id, Task>) {
    /** What `from_tasks` establishes before it looks for a cycle. */
    ghost predicate Valid() {
      && byId.Keys == (set t | t in tasks :: t.id)
      && (forall t :: t in tasks ==> byId[t.id] == t)
      && (forall i, j :: 0 <= i < j < |tasks| ==> tasks[i].id != tasks[j].id)
      && (forall t, d :: t in tasks && d in t.blockedBy ==> d in byId && d != t.id)
    }

    function Ids(): set<Id> {
      byId.Keys
    }

    /** What the task waits for. */
    function Blockers(x: Id): seq<Id>
      requires x in byId
    {
      byId[x].blockedBy
    }

    /** `late` waits directly for `early`. */
    predicate Waits(early: Id, late: Id) {
      late in byId && early in byId[late].blockedBy
    }
  }

  lemma KnownTask(g: Graph, x: Id)
    requires g.Valid() && x in g.byId
    ensures g.byId[x] in g.tasks && g.byId[x].id == x
    ensures forall d :: d in g.Blockers(x) ==> d in g.byId && d != x
  {
  }

  /** A dependency chain: each task after the first waits directly for the one before it. */
  ghost predicate Chain(g: Graph, p: seq<Id>) {
    && p != []
    && (forall i :: 0 <= i < |p| ==> p[i] in g.byId)
    && (forall i :: 0 < i < |p| ==> g.Waits(p[i - 1], p[i]))
  }

  ghost predicate Cycle(g: Graph, p: seq<Id>) {
    Chain(g, p) && |p| >= 2 && p[0] == p[|p| - 1]
  }

  ghost predicate Acyclic(g: Graph) {
    forall p :: !Cycle(g, p)
  }

  lemma ChainSlice(g: Graph, p: seq<Id>, i: nat, j: nat)
    requires Chain(g, p) && i < j <= |p|
    ensures Chain(g, p[i..j])
  {
    var s := p[i..j];
    forall k | 0 < k < |s|
      ensures g.Waits(s[k - 1], s[k])
    {
      assert s[k - 1] == p[i + k - 1] && s[k] == p[i + k];
    }
  }

  lemma ChainJoin(g: Graph, p: seq<Id>, q: seq<Id>)
    requires Chain(g, p) && Chain(g, q) && g.Waits(p[|p| - 1], q[0])
    ensures Chain(g, p + q)
  {
    var s := p + q;
    forall k | 0 < k < |s|
      ensures g.Waits(s[k - 1], s[k])
    {
    }
  }

  ghost predicate WaitsInside(g: Graph, rest: set<Id>, y: Id)
    requires y in g.byId
  {
    exists d :: d in g.Blockers(y) && d in rest
  }

  /** Every task of the set waits for another of the set. */
  ghost predicate Stuck(g: Graph, rest: set<Id>) {
    && rest <= g.Ids()
    && forall y {:trigger WaitsInside(g, rest, y)} :: y in rest ==> WaitsInside(g, rest, y)
  }

  /** In a set where every task waits for another of the set, walking back never ends. */
  lemma {:induction false} WalkBack(g: Graph, rest: set<Id>, x: Id, n: nat) returns (p: seq<Id>)
    requires Stuck(g, rest) && x in rest
    ensures Chain(g, p) && |p| == n + 1 && p[n] == x
    ensures forall y :: y in p ==> y in rest
    decreases n
  {
    if n == 0 {
      p := [x];
    } else {
      assert WaitsInside(g, rest, x);
      var d :| d in g.Blockers(x) && d in rest;
      var q := WalkBack(g, rest, d, n - 1);
      ChainJoin(g, q, [x]);
      p := q + [x];
    }
  }

  /** So such a set, unless empty, holds a cycle. */
  lemma StuckMeansCycle(g: Graph, rest: set<Id>, x: Id) returns (p: seq<Id>)
    requires Stuck(g, rest) && x in rest
    ensures Cycle(g, p)
  {
    var walk := WalkBack(g, rest, x, |rest|);
    var i, j := Pigeonhole(walk, rest);
    ChainSlice(g, walk, i, j + 1);
    p := walk[i..j + 1];
    assert p[0] == walk[i] && p[|p| - 1] == walk[j];
  }
}
