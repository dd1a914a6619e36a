/** `_topo_order` and the two checks of `from_tasks`, as they run (src/rein/dag.py). */
module Kahn {
  import opened Ids
  import opened TaskGraph
  import opened TopoOrder

  /** One finished task: every mention of it among a child's blockers counts down that child. */
  lemma CountedSoFar(children: seq<Id>, j: nat)
    requires j < |children|
    ensures children[..j + 1] == children[..j] + [children[j]]
    ensures multiset(children[..j + 1]) == multiset(children[..j]) + multiset{children[j]}
    ensures multiset(children)[children[j]] >= multiset(children[..j + 1])[children[j]]
  {
    assert children == children[..j + 1] + children[j + 1..];
  }

  method CountDown(indegree: map<Id, int>, children: seq<Id>) returns (left: map<Id, int>, newly: seq<Id>)
    requires forall c :: c in children ==> c in indegree
    requires forall c :: c in indegree ==> indegree[c] >= multiset(children)[c]
    ensures left.Keys == indegree.Keys
    ensures forall c :: c in indegree ==> left[c] == indegree[c] - multiset(children)[c]
    ensures Distinct(newly)
    ensures forall c :: c in newly <==> c in children && left[c] == 0
  {
    left, newly := indegree, [];
    for j := 0 to |children|
      invariant left.Keys == indegree.Keys
      invariant forall c :: c in indegree ==> left[c] == indegree[c] - multiset(children[..j])[c]
      invariant Distinct(newly)
      invariant forall c :: c in newly <==> c in children[..j] && left[c] == 0
    {
      var child := children[j];
      CountedSoFar(children, j);
      left := left[child := left[child] - 1];
      if left[child] == 0 {
        newly := newly + [child];
      }
    }
    assert children[..|children|] == children;
  }

  ghost predicate Consistent(g: Graph, indegree: map<Id, int>, ready: seq<Id>, order: seq<Id>) {
    && Topological(g, order)
    && Greedy(g, order) == Order(g)
    && indegree.Keys == g.Ids()
    && (forall c :: c in indegree ==> indegree[c] == Missing(g.byId[c].blockedBy, order))
    && Ascending(ready)
    && (forall c :: c in ready <==> c in Available(g, order))
  }

  lemma ReadyMeansNothingMissing(g: Graph, order: seq<Id>, c: Id)
    requires c in g.byId
    ensures Ready(g, order, c) <==> c !in order && Missing(g.byId[c].blockedBy, order) == 0
  {
    MissingZero(g.byId[c].blockedBy, order);
  }

  lemma PlacedWaitsForPlaced(g: Graph, order: seq<Id>, c: Id)
    requires Topological(g, order) && c in order
    ensures forall d :: d in g.byId[c].blockedBy ==> d in order
  {
    var i :| 0 <= i < |order| && order[i] == c;
    forall d | d in g.byId[c].blockedBy
      ensures d in order
    {
      assert d in order[..i];
    }
  }

  /** What is startable after x: what already was, and what waited for x last. */
  lemma AvailableAfter(g: Graph, order: seq<Id>, x: Id, c: Id)
    requires g.Valid() && Topological(g, order) && x in Available(g, order)
    ensures c in Available(g, order + [x]) <==>
              || (c in Available(g, order) && c != x)
              || (c in Dependents(g.tasks, x) && c in g.byId && Missing(g.byId[c].blockedBy, order + [x]) == 0)
    ensures c in Available(g, order) ==> c !in Dependents(g.tasks, x)
  {
    DependentsKnown(g, x);
    if c in g.byId {
      ReadyMeansNothingMissing(g, order, c);
      ReadyMeansNothingMissing(g, order + [x], c);
      DependentsCount(g, x, c);
      MissingDrops(g.byId[c].blockedBy, order, x);
      assert x in g.byId[c].blockedBy <==> multiset(g.byId[c].blockedBy)[x] > 0;
      if c in order {
        PlacedWaitsForPlaced(g, order, c);
      }
      if c == x {
        KnownTask(g, x);
      }
    }
  }

  /** The list `ready + newly` holds exactly what is startable next, each once. */
  lemma NextPool(g: Graph, ready: seq<Id>, order: seq<Id>, newly: seq<Id>)
    requires g.Valid() && Topological(g, order) && ready != [] && Ascending(ready)
    requires forall c :: c in ready <==> c in Available(g, order)
    requires Distinct(newly)
    requires forall c :: c in newly <==>
               c in Dependents(g.tasks, ready[0]) && c in g.byId && Missing(g.byId[c].blockedBy, order + [ready[0]]) == 0
    ensures Distinct(ready[1..] + newly)
    ensures forall c :: c in ready[1..] + newly <==> c in Available(g, order + [ready[0]])
  {
    var x := ready[0];
    assert x in Available(g, order);
    forall c
      ensures c in ready[1..] + newly <==> c in Available(g, order + [x])
    {
      AvailableAfter(g, order, x, c);
      TailMembers(ready, c);
    }
    assert Distinct(ready[1..]) by {
      BeforeIsTotalOrder();
    }
    forall c | c in newly
      ensures c !in ready[1..]
    {
      AvailableAfter(g, order, x, c);
      TailMembers(ready, c);
    }
    DistinctJoin(ready[1..], newly);
  }

  lemma StepKeepsConsistent(g: Graph, indegree: map<Id, int>, ready: seq<Id>, order: seq<Id>,
                            left: map<Id, int>, newly: seq<Id>)
    requires g.Valid() && Consistent(g, indegree, ready, order) && ready != []
    requires left.Keys == indegree.Keys
    requires forall c :: c in indegree ==> left[c] == indegree[c] - multiset(Dependents(g.tasks, ready[0]))[c]
    requires Distinct(newly)
    requires forall c :: c in newly <==> c in Dependents(g.tasks, ready[0]) && c in left && left[c] == 0
    ensures Consistent(g, left, Sort(ready[1..] + newly), order + [ready[0]])
  {
    var x := ready[0];
    assert x in Available(g, order) && x !in order;
    CountsAfter(g, indegree, left, order, x);
    NextPool(g, ready, order, newly);
    SortDistinct(ready[1..] + newly);
    SortKeepsMembers(ready[1..] + newly);
    NextIsLeast(g, order, ready);
    TopologicalSnoc(g, order, x);
  }

  lemma CountsAfter(g: Graph, indegree: map<Id, int>, left: map<Id, int>, order: seq<Id>, x: Id)
    requires g.Valid() && x !in order
    requires left.Keys == indegree.Keys == g.Ids()
    requires forall c :: c in indegree ==> indegree[c] == Missing(g.byId[c].blockedBy, order)
    requires forall c :: c in indegree ==> left[c] == indegree[c] - multiset(Dependents(g.tasks, x))[c]
    ensures forall c :: c in left ==> left[c] == Missing(g.byId[c].blockedBy, order + [x])
  {
    forall c | c in left
      ensures left[c] == Missing(g.byId[c].blockedBy, order + [x])
    {
      DependentsCount(g, x, c);
      MissingDrops(g.byId[c].blockedBy, order, x);
    }
  }

  lemma TailMembers(ready: seq<Id>, c: Id)
    requires Ascending(ready) && ready != []
    ensures c in ready[1..] <==> c in ready && c != ready[0]
  {
    BeforeIsTotalOrder();
  }

  lemma NextIsLeast(g: Graph, order: seq<Id>, ready: seq<Id>)
    requires Ascending(ready) && ready != []
    requires forall c :: c in ready <==> c in Available(g, order)
    ensures Greedy(g, order) == Greedy(g, order + [ready[0]])
  {
    BeforeIsTotalOrder();
    assert ready[0] in Available(g, order);
    var x := Least(Available(g, order));
    assert x in ready;
    assert !Before(ready[0], x);
  }

  lemma StartIsConsistent(g: Graph, indegree: map<Id, int>, ready: seq<Id>)
    requires g.Valid()
    requires indegree.Keys == g.Ids()
    requires forall c :: c in indegree ==> indegree[c] == |g.byId[c].blockedBy|
    requires Ascending(ready)
    requires forall c :: c in ready <==> c in indegree && indegree[c] == 0
    ensures Consistent(g, indegree, ready, [])
  {
    forall c | c in indegree
      ensures indegree[c] == Missing(g.byId[c].blockedBy, [])
      ensures c in ready <==> c in Available(g, [])
    {
      MissingNone(g.byId[c].blockedBy);
      ReadyMeansNothingMissing(g, [], c);
    }
  }

  /** The ids of the tasks nothing holds back, sorted. */
  method Startable(g: Graph, indegree: map<Id, int>) returns (ready: seq<Id>)
    requires g.Valid() && indegree.Keys == g.Ids()
    ensures Ascending(ready)
    ensures forall c :: c in ready <==> c in indegree && indegree[c] == 0
  {
    var found: seq<Id> := [];
    for i := 0 to |g.tasks|
      invariant Distinct(found)
      invariant forall c :: c in found <==> ListedBefore(g, i, c) && c in indegree && indegree[c] == 0
    {
      var t := g.tasks[i];
      ListedNext(g, i);
      if indegree[t.id] == 0 {
        found := found + [t.id];
      }
    }
    EachIdListed(g);
    SortDistinct(found);
    SortKeepsMembers(found);
    ready := Sort(found);
  }

  predicate ListedBefore(g: Graph, i: nat, c: Id)
    requires i <= |g.tasks|
  {
    exists k :: 0 <= k < i && g.tasks[k].id == c
  }

  lemma ListedNext(g: Graph, i: nat)
    requires g.Valid() && i < |g.tasks|
    ensures g.tasks[i].id in g.Ids() && !ListedBefore(g, i, g.tasks[i].id)
    ensures forall c {:trigger ListedBefore(g, i + 1, c)} :: ListedBefore(g, i + 1, c) <==> ListedBefore(g, i, c) || c == g.tasks[i].id
  {
    assert g.tasks[i] in g.tasks;
  }

  lemma EachIdListed(g: Graph)
    requires g.Valid()
    ensures forall c :: c in g.byId ==> ListedBefore(g, |g.tasks|, c)
  {
    forall c | c in g.byId
      ensures ListedBefore(g, |g.tasks|, c)
    {
      KnownTask(g, c);
      var k :| 0 <= k < |g.tasks| && g.tasks[k] == g.byId[c];
    }
  }

  method TopologicalOrder(g: Graph) returns (order: seq<Id>)
    requires g.Valid()
    ensures order == Order(g)
  {
    var indegree := map x | x in g.byId :: |g.byId[x].blockedBy|;
    var dependents := DependentsMap(g);
    var ready := Startable(g, indegree);
    order := [];
    StartIsConsistent(g, indegree, ready);
    while ready != []
      invariant Consistent(g, indegree, ready, order)
      decreases g.Ids() - Elems(order)
    {
      var tid := ready[0];
      assert tid in Available(g, order);
      CountsSuffice(g, indegree, ready, order);
      var left, newly := CountDown(indegree, dependents[tid]);
      StepKeepsConsistent(g, indegree, ready, order, left, newly);
      assert tid in g.Ids() - Elems(order) && tid in Elems(order + [tid]);
      order := order + [tid];
      ready := Sort(ready[1..] + newly);
      indegree := left;
    }
    assert Available(g, order) == {} by {
      assert forall c :: c in Available(g, order) ==> c in ready;
    }
  }

  lemma CountsSuffice(g: Graph, indegree: map<Id, int>, ready: seq<Id>, order: seq<Id>)
    requires g.Valid() && Consistent(g, indegree, ready, order) && ready != []
    ensures forall c :: c in Dependents(g.tasks, ready[0]) ==> c in indegree
    ensures forall c :: c in indegree ==> indegree[c] >= multiset(Dependents(g.tasks, ready[0]))[c]
  {
    assert ready[0] in Available(g, order);
    DependentsKnown(g, ready[0]);
    forall c | c in indegree
      ensures indegree[c] >= multiset(Dependents(g.tasks, ready[0]))[c]
    {
      DependentsCount(g, ready[0], c);
      MissingDrops(g.byId[c].blockedBy, order, ready[0]);
    }
  }

  // ---- from_tasks ------------------------------------------------------------------------------

  datatype Built =
    | Accepted(graph: Graph)
    | DuplicateId(id: Id)
    | UnknownDependency(id: Id, dep: Id)
    | SelfDependency(id: Id)
    | HasCycle(refused: Graph)

  ghost predicate UniqueIds(tasks: seq<Task>) {
    forall i, j :: 0 <= i < j < |tasks| ==> tasks[i].id != tasks[j].id
  }

  ghost predicate Indexes(byId: map<Id, Task>, tasks: seq<Task>) {
    && byId.Keys == (set t | t in tasks :: t.id)
    && forall t :: t in tasks ==> byId[t.id] == t
  }

  method Index(tasks: seq<Task>) returns (byId: map<Id, Task>, duplicate: bool, id: Id)
    ensures !duplicate ==> UniqueIds(tasks) && Indexes(byId, tasks)
    ensures duplicate ==> exists i, j :: 0 <= i < j < |tasks| && tasks[i].id == tasks[j].id == id
  {
    byId, duplicate, id := map[], false, "";
    for i := 0 to |tasks|
      invariant UniqueIds(tasks[..i])
      invariant forall t :: t in tasks[..i] ==> t.id in byId && byId[t.id] == t
      invariant forall x :: x in byId ==> byId[x] in tasks[..i] && byId[x].id == x
    {
      var t := tasks[i];
      if t.id in byId {
        var k :| 0 <= k < i && tasks[k] == byId[t.id];
        return byId, true, t.id;
      }
      assert tasks[..i + 1] == tasks[..i] + [t];
      byId := byId[t.id := t];
    }
    assert tasks[..|tasks|] == tasks;
  }

  /** The first n blockers the task names are in the list, and none is the task itself. */
  predicate BlockersKnown(byId: map<Id, Task>, t: Task, n: nat)
    requires n <= |t.blockedBy|
  {
    forall j :: 0 <= j < n ==> t.blockedBy[j] in byId && t.blockedBy[j] != t.id
  }

  lemma KnownBlockersMakeValid(tasks: seq<Task>, byId: map<Id, Task>)
    requires UniqueIds(tasks) && Indexes(byId, tasks)
    requires forall k :: 0 <= k < |tasks| ==> BlockersKnown(byId, tasks[k], |tasks[k].blockedBy|)
    ensures Graph(tasks, byId).Valid()
  {
    forall t, d | t in tasks && d in t.blockedBy
      ensures d in byId && d != t.id
    {
      var k :| 0 <= k < |tasks| && tasks[k] == t;
      var j :| 0 <= j < |t.blockedBy| && t.blockedBy[j] == d;
      assert BlockersKnown(byId, tasks[k], |tasks[k].blockedBy|);
    }
  }

  /** The only way to a graph: what is accepted has no duplicate, no unknown or own dependency and no
      cycle, and everything without one of those is accepted. */
  method FromTasks(tasks: seq<Task>) returns (built: Built)
    ensures built.Accepted? ==> built.graph.tasks == tasks && built.graph.Valid() && Acyclic(built.graph)
    ensures built.DuplicateId? ==> exists i, j :: 0 <= i < j < |tasks| && tasks[i].id == tasks[j].id == built.id
    ensures built.UnknownDependency? ==>
      exists t :: t in tasks && t.id == built.id && built.dep in t.blockedBy && forall u :: u in tasks ==> u.id != built.dep
    ensures built.SelfDependency? ==> exists t :: t in tasks && t.id == built.id && t.id in t.blockedBy
    ensures built.HasCycle? ==> built.refused.tasks == tasks && built.refused.Valid() && !Acyclic(built.refused)
  {
    var byId, duplicate, id := Index(tasks);
    if duplicate {
      return DuplicateId(id);
    }
    for i := 0 to |tasks|
      invariant forall k :: 0 <= k < i ==> BlockersKnown(byId, tasks[k], |tasks[k].blockedBy|)
    {
      var t := tasks[i];
      for j := 0 to |t.blockedBy|
        invariant BlockersKnown(byId, t, j)
      {
        var dep := t.blockedBy[j];
        if dep !in byId {
          return UnknownDependency(t.id, dep);
        }
        if dep == t.id {
          return SelfDependency(t.id);
        }
      }
    }
    KnownBlockersMakeValid(tasks, byId);
    var graph := Graph(tasks, byId);
    var order := TopologicalOrder(graph);
    FullExactlyWhenAcyclic(graph);
    built := if |order| != |tasks| then HasCycle(graph) else Accepted(graph);
  }
}
