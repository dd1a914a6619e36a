/** What may start now, and how consuming it round by round follows the layers (src/rein/dag.py). */
module Frontier {
  import opened Ids
  import opened TaskGraph
  import opened TopoOrder
  import opened Layers

  predicate CanStart(g: Graph, t: Task) {
    t.status == Todo && forall d :: d in t.blockedBy ==> d in g.byId && g.byId[d].status == Done
  }

  function Startable(g: Graph, tasks: seq<Task>): seq<Id> {
    if tasks == [] then []
    else Startable(g, tasks[..|tasks| - 1]) + if CanStart(g, tasks[|tasks| - 1]) then [tasks[|tasks| - 1].id] else []
  }

  lemma {:induction false} StartableHolds(g: Graph, tasks: seq<Task>, x: Id)
    ensures x in Startable(g, tasks) <==> exists t :: t in tasks && t.id == x && CanStart(g, t)
  {
    if tasks != [] {
      var rest, last := tasks[..|tasks| - 1], tasks[|tasks| - 1];
      assert tasks == rest + [last];
      StartableHolds(g, rest, x);
    }
  }

  /** todo tasks whose every blocker is done, in ascending order. */
  function Frontier(g: Graph): seq<Id> {
    Sort(Startable(g, g.tasks))
  }

  lemma FrontierHolds(g: Graph, x: Id)
    requires g.Valid()
    ensures x in Frontier(g) <==> x in g.byId && CanStart(g, g.byId[x])
    ensures x in Frontier(g) <==>
              x in g.byId && g.byId[x].status == Todo && forall d :: d in g.byId[x].blockedBy ==> d in g.byId && g.byId[d].status == Done
  {
    SortKeepsMembers(Startable(g, g.tasks));
    StartableHolds(g, g.tasks, x);
    if x in g.byId {
      KnownTask(g, x);
    }
  }

  lemma {:induction false} StartableDistinct(g: Graph, tasks: seq<Task>)
    requires forall i, j :: 0 <= i < j < |tasks| ==> tasks[i].id != tasks[j].id
    ensures Distinct(Startable(g, tasks))
  {
    if tasks != [] {
      var rest := tasks[..|tasks| - 1];
      StartableDistinct(g, rest);
      var last := tasks[|tasks| - 1];
      StartableHolds(g, rest, last.id);
      assert forall t :: t in rest ==> t.id != last.id;
      assert Distinct([tasks[|tasks| - 1].id]) && Distinct<Id>([]);
      DistinctJoin(Startable(g, rest), if CanStart(g, tasks[|tasks| - 1]) then [tasks[|tasks| - 1].id] else []);
    }
  }

  lemma FrontierAscends(g: Graph)
    requires g.Valid()
    ensures Ascending(Frontier(g))
  {
    StartableDistinct(g, g.tasks);
    SortDistinct(Startable(g, g.tasks));
  }

  // ---- it never runs dry -------------------------------------------------------------------

  ghost predicate TodoOrDone(g: Graph) {
    forall x :: x in g.byId ==> g.byId[x].status == Todo || g.byId[x].status == Done
  }

  lemma {:induction false} FirstOpen(g: Graph, order: seq<Id>, x: Id) returns (i: nat)
    requires forall y :: y in order ==> y in g.byId
    requires x in order && g.byId[x].status != Done
    ensures i < |order| && g.byId[order[i]].status != Done
    ensures forall y :: y in order[..i] ==> g.byId[y].status == Done
  {
    i := 0;
    while g.byId[order[i]].status == Done
      invariant i < |order|
      invariant forall y :: y in order[..i] ==> g.byId[y].status == Done
      invariant exists j :: i <= j < |order| && order[j] == x
      decreases |order| - i
    {
      assert order[..i + 1] == order[..i] + [order[i]];
      i := i + 1;
    }
  }

  /** With every task todo or done and some not done, something can start. */
  lemma NeverStuck(g: Graph, x: Id)
    requires g.Valid() && Acyclic(g) && TodoOrDone(g)
    requires x in g.byId && g.byId[x].status != Done
    ensures Frontier(g) != []
  {
    FullExactlyWhenAcyclic(g);
    var order := Order(g);
    assert x in Elems(order);
    var i := FirstOpen(g, order, x);
    NextIsReady(g, order, i);
    FrontierHolds(g, order[i]);
    KnownTask(g, order[i]);
    assert order[i] in Frontier(g);
  }

  // ---- rounds ------------------------------------------------------------------------------

  function Marked(t: Task, done: set<Id>): Task {
    if t.id in done then t.(status := Done) else t
  }

  function Mark(g: Graph, done: set<Id>): Graph {
    Graph(seq(|g.tasks|, i requires 0 <= i < |g.tasks| => Marked(g.tasks[i], done)),
          map x | x in g.byId :: Marked(g.byId[x], done))
  }

  /** k rounds, each finishing everything the frontier held. */
  function Rounds(g: Graph, k: nat): Graph {
    if k == 0 then g
    else
      var before := Rounds(g, k - 1);
      Mark(before, Elems(Frontier(before)))
  }

  /** g with exactly the tasks of `done` done and all others todo. */
  ghost predicate Progress(g: Graph, h: Graph, done: set<Id>) {
    && h.Valid() && h.byId.Keys == g.byId.Keys
    && forall x :: x in g.byId ==>
         h.byId[x].blockedBy == g.byId[x].blockedBy && h.byId[x].status == if x in done then Done else Todo
  }

  lemma MarkKeepsTask(g: Graph, done: set<Id>, i: nat)
    requires g.Valid() && i < |g.tasks|
    ensures Mark(g, done).tasks[i] == Marked(g.tasks[i], done) == Mark(g, done).byId[g.tasks[i].id]
    ensures Marked(g.tasks[i], done).id == g.tasks[i].id && Marked(g.tasks[i], done).blockedBy == g.tasks[i].blockedBy
    ensures g.tasks[i].id in g.byId
    ensures forall d :: d in g.tasks[i].blockedBy ==> d in g.byId && d != g.tasks[i].id
  {
    assert g.tasks[i] in g.tasks;
  }

  lemma MarkKeepsIds(g: Graph, done: set<Id>)
    requires g.Valid()
    ensures (set t | t in Mark(g, done).tasks :: t.id) == (set t | t in g.tasks :: t.id)
  {
    var h := Mark(g, done);
    forall i | 0 <= i < |g.tasks|
      ensures h.tasks[i].id == g.tasks[i].id && h.tasks[i] in h.tasks && g.tasks[i] in g.tasks
    {
      MarkKeepsTask(g, done, i);
    }
    forall t | t in g.tasks
      ensures t.id in (set u | u in h.tasks :: u.id)
    {
      var i :| 0 <= i < |g.tasks| && g.tasks[i] == t;
      assert h.tasks[i].id == t.id;
    }
  }

  lemma MarkIsValid(g: Graph, done: set<Id>)
    requires g.Valid()
    ensures Mark(g, done).Valid()
  {
    var h := Mark(g, done);
    MarkKeepsIds(g, done);
    forall i | 0 <= i < |h.tasks|
      ensures h.tasks[i].id == g.tasks[i].id && h.byId[h.tasks[i].id] == h.tasks[i]
      ensures forall d :: d in h.tasks[i].blockedBy ==> d in h.byId && d != h.tasks[i].id
    {
      MarkKeepsTask(g, done, i);
    }
  }

  lemma MarkProgress(g: Graph, h: Graph, done: set<Id>, more: set<Id>)
    requires Progress(g, h, done)
    ensures Progress(g, Mark(h, more), done + more)
  {
    MarkIsValid(h, more);
    var after := Mark(h, more);
    forall x | x in g.byId
      ensures after.byId[x].blockedBy == g.byId[x].blockedBy
      ensures after.byId[x].status == if x in done + more then Done else Todo
    {
      KnownTask(h, x);
    }
  }

  ghost function Union(layers: seq<seq<Id>>): set<Id> {
    if layers == [] then {} else Union(layers[..|layers| - 1]) + Elems(layers[|layers| - 1])
  }

  lemma {:induction false} UnionMember(layers: seq<seq<Id>>, x: Id)
    ensures x in Union(layers) <==> exists i :: 0 <= i < |layers| && x in layers[i]
  {
    if layers != [] {
      var rest := layers[..|layers| - 1];
      UnionMember(rest, x);
      assert layers == rest + [layers[|layers| - 1]];
    }
  }

  lemma BlockerIsHigher(g: Graph, layers: seq<seq<Id>>, i: nat, x: Id, d: Id) returns (j: nat)
    requires g.Valid() && IsLayering(g, layers)
    requires i < |layers| && x in layers[i] && x in g.byId && d in g.byId[x].blockedBy
    ensures j < i && d in layers[j]
  {
    KnownTask(g, x);
    j := LayerOf(g, layers, d);
    InLayer(g, layers, j, d);
    InLayer(g, layers, i, x);
    var p :| ChainTo(g, p, d) && |p| == j + 1;
    ChainJoin(g, p, [x]);
    assert ChainTo(g, p + [x], x);
  }

  lemma SomeBlockerJustAbove(g: Graph, layers: seq<seq<Id>>, i: nat, x: Id) returns (d: Id)
    requires g.Valid() && IsLayering(g, layers)
    requires 0 < i < |layers| && x in layers[i] && x in g.byId
    ensures d in g.byId[x].blockedBy && d in layers[i - 1]
  {
    InLayer(g, layers, i, x);
    var p :| ChainTo(g, p, x) && |p| == i + 1;
    d := LastStep(g, p, x, i);
    var j := BlockerIsHigher(g, layers, i, x, d);
    NoHigher(g, layers, j, d, p[..i]);
  }

  /** A task ends no chain longer than its layer is deep. */
  lemma NoHigher(g: Graph, layers: seq<seq<Id>>, j: nat, d: Id, p: seq<Id>)
    requires g.Valid() && IsLayering(g, layers) && j < |layers| && d in layers[j] && ChainTo(g, p, d)
    ensures |p| <= j + 1
  {
    InLayer(g, layers, j, d);
  }

  /** What a chain comes from before its end. */
  lemma LastStep(g: Graph, p: seq<Id>, x: Id, i: nat) returns (d: Id)
    requires i > 0 && |p| == i + 1 && ChainTo(g, p, x)
    ensures d in g.byId && x in g.byId && d in g.byId[x].blockedBy && ChainTo(g, p[..i], d)
  {
    d := p[i - 1];
    assert g.Waits(d, p[i]);
    ChainSlice(g, p, 0, i);
  }

  lemma OpensInTurn(g: Graph, h: Graph, layers: seq<seq<Id>>, k: nat, i: nat, x: Id)
    requires g.Valid() && IsLayering(g, layers) && k < |layers|
    requires Progress(g, h, Union(layers[..k]))
    requires i < |layers| && x in layers[i] && x in g.byId
    ensures CanStart(h, h.byId[x]) <==> i == k
  {
    DoneBefore(g, layers, k, i, x);
    KnownTask(g, x);
    if i == k {
      forall d | d in h.byId[x].blockedBy
        ensures h.byId[d].status == Done
      {
        var j := BlockerIsHigher(g, layers, i, x, d);
        DoneBefore(g, layers, k, j, d);
      }
    } else if i > k {
      var d := SomeBlockerJustAbove(g, layers, i, x);
      DoneBefore(g, layers, k, i - 1, d);
      assert h.byId[d].status == Todo;
    }
  }

  /** What the first k layers hold, by layer number. */
  lemma DoneBefore(g: Graph, layers: seq<seq<Id>>, k: nat, i: nat, x: Id)
    requires IsLayering(g, layers) && k <= |layers| && i < |layers| && x in layers[i]
    ensures x in Union(layers[..k]) <==> i < k
  {
    UnionMember(layers[..k], x);
    if i < k {
      assert x in layers[..k][i];
    } else if x in Union(layers[..k]) {
      var j :| 0 <= j < |layers[..k]| && x in layers[..k][j];
      OneLayer(g, layers, i, j, x);
    }
  }

  /** With the first k layers done and nothing else, the frontier is the next layer. */
  lemma NextLayerStarts(g: Graph, h: Graph, layers: seq<seq<Id>>, k: nat)
    requires g.Valid() && IsLayering(g, layers) && k < |layers|
    requires Progress(g, h, Union(layers[..k]))
    ensures Frontier(h) == layers[k]
  {
    forall x
      ensures x in Frontier(h) <==> x in layers[k]
    {
      FrontierHolds(h, x);
      InLayer(g, layers, k, x);
      if x in g.byId {
        var i := LayerOf(g, layers, x);
        OpensInTurn(g, h, layers, k, i, x);
        if x in layers[k] {
          OneLayer(g, layers, i, k, x);
        }
      }
    }
    FrontierAscends(h);
    AscendingUnique(Frontier(h), layers[k]);
  }

  lemma FinishLayer(g: Graph, h: Graph, layers: seq<seq<Id>>, k: nat)
    requires k < |layers| && Progress(g, h, Union(layers[..k])) && Frontier(h) == layers[k]
    ensures Progress(g, Mark(h, Elems(Frontier(h))), Union(layers[..k + 1]))
  {
    MarkProgress(g, h, Union(layers[..k]), Elems(layers[k]));
    assert layers[..k + 1][..k] == layers[..k];
    assert Union(layers[..k + 1]) == Union(layers[..k]) + Elems(layers[k]);
  }

  ghost predicate AllTodo(g: Graph) {
    forall x :: x in g.byId ==> g.byId[x].status == Todo
  }

  lemma StartProgress(g: Graph, layers: seq<seq<Id>>)
    requires g.Valid() && AllTodo(g)
    ensures Progress(g, g, Union(layers[..0]))
  {
    assert layers[..0] == [];
  }

  lemma {:induction false} RoundsProgress(g: Graph, layers: seq<seq<Id>>, k: nat)
    requires g.Valid() && AllTodo(g) && IsLayering(g, layers) && k <= |layers|
    ensures Progress(g, Rounds(g, k), Union(layers[..k]))
  {
    if k == 0 {
      StartProgress(g, layers);
    } else {
      RoundsProgress(g, layers, k - 1);
      NextLayerStarts(g, Rounds(g, k - 1), layers, k - 1);
      FinishLayer(g, Rounds(g, k - 1), layers, k - 1);
    }
  }

  /** From all todo, after k rounds exactly the first k layers are done, and the next round starts the
      next layer. */
  lemma RoundsFollowLayers(g: Graph, layers: seq<seq<Id>>, k: nat)
    requires g.Valid() && AllTodo(g) && IsLayering(g, layers) && k <= |layers|
    ensures Progress(g, Rounds(g, k), Union(layers[..k]))
    ensures k < |layers| ==> Frontier(Rounds(g, k)) == layers[k]
  {
    RoundsProgress(g, layers, k);
    if k < |layers| {
      NextLayerStarts(g, Rounds(g, k), layers, k);
    }
  }

  /** So as many rounds as there are layers finish the graph. */
  lemma LastRoundFinishes(g: Graph, layers: seq<seq<Id>>, x: Id)
    requires g.Valid() && AllTodo(g) && IsLayering(g, layers) && x in g.byId
    ensures x in Rounds(g, |layers|).byId && Rounds(g, |layers|).byId[x].status == Done
  {
    RoundsFollowLayers(g, layers, |layers|);
    var i := LayerOf(g, layers, x);
    DoneBefore(g, layers, |layers|, i, x);
  }
}
