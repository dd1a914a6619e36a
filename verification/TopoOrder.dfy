/** The order the loop consumes tasks in: Kahn's algorithm with ties by ascending id (src/rein/dag.py). */
module TopoOrder {
  import opened Ids
  import opened TaskGraph

  // ---- the specification: always the least task whose blockers have all come before -----

  predicate Ready(g: Graph, done: seq<Id>, x: Id) {
    x in g.byId && x !in done && forall d :: d in g.byId[x].blockedBy ==> d in done
  }

  function Available(g: Graph, done: seq<Id>): set<Id> {
    set x | x in g.byId && Ready(g, done, x)
  }

  predicate IsLeast(x: Id, s: set<Id>) {
    x in s && forall y :: y in s ==> !Before(y, x)
  }

  lemma {:induction false} LeastExists(s: set<Id>)
    requires s != {}
    ensures exists x :: IsLeast(x, s)
  {
    BeforeIsTotalOrder();
    var x :| x in s;
    if s == {x} {
      assert IsLeast(x, s);
    } else {
      LeastExists(s - {x});
      var y :| IsLeast(y, s - {x});
      assert IsLeast(if Before(x, y) then x else y, s);
    }
  }

  ghost function Least(s: set<Id>): (x: Id)
    requires s != {}
    ensures IsLeast(x, s)
  {
    LeastExists(s);
    var x :| IsLeast(x, s);
    x
  }

  ghost function Greedy(g: Graph, done: seq<Id>): seq<Id>
    decreases g.Ids() - Elems(done)
  {
    if Available(g, done) == {} then done
    else
      var x := Least(Available(g, done));
      assert x in g.Ids() - Elems(done) && x in Elems(done + [x]);
      Greedy(g, done + [x])
  }

  ghost function Order(g: Graph): seq<Id> {
    Greedy(g, [])
  }

  // ---- what that order is ------------------------------------------------------------------

  /** Every task of the list comes after everything it waits for. */
  ghost predicate Topological(g: Graph, s: seq<Id>) {
    && Distinct(s)
    && (forall i :: 0 <= i < |s| ==> s[i] in g.byId)
    && (forall i, d :: 0 <= i < |s| && d in g.byId[s[i]].blockedBy ==> d in s[..i])
  }

  /** Walking the order, whatever the next task waits for has been met, and the task itself has not. */
  lemma NextIsReady(g: Graph, s: seq<Id>, i: nat)
    requires Topological(g, s) && i < |s|
    ensures Ready(g, s[..i], s[i])
    ensures Elems(s[..i + 1]) == Elems(s[..i]) + {s[i]}
  {
    assert forall d :: d in g.byId[s[i]].blockedBy ==> d in s[..i];
    assert s[..i + 1] == s[..i] + [s[i]];
  }

  lemma TopologicalSnoc(g: Graph, s: seq<Id>, x: Id)
    requires Topological(g, s) && Ready(g, s, x)
    ensures Topological(g, s + [x])
  {
    var r := s + [x];
    forall i, d | 0 <= i < |r| && d in g.byId[r[i]].blockedBy
      ensures d in r[..i]
    {
      assert r[..i] == s[..i];
      assert s[..|s|] == s;
    }
  }

  lemma {:induction false} GreedyIsTopological(g: Graph, done: seq<Id>)
    requires Topological(g, done)
    ensures Topological(g, Greedy(g, done))
    ensures done <= Greedy(g, done)
    ensures Available(g, Greedy(g, done)) == {}
    decreases g.Ids() - Elems(done)
  {
    if Available(g, done) != {} {
      var x := Least(Available(g, done));
      assert x in g.Ids() - Elems(done) && x in Elems(done + [x]);
      TopologicalSnoc(g, done, x);
      GreedyIsTopological(g, done + [x]);
    }
  }

  /** a comes first: at the first place they differ, a has the smaller id. */
  ghost predicate LexAtMost(a: seq<Id>, b: seq<Id>) {
    exists k :: 0 <= k <= |a| && k <= |b| && AgreesUpTo(a, b, k) && (k == |a| || (k < |b| && Before(a[k], b[k])))
  }

  ghost predicate AgreesUpTo(a: seq<Id>, b: seq<Id>, k: nat)
    requires k <= |a| && k <= |b|
  {
    a[..k] == b[..k]
  }

  /** Against any other order that starts the same way and leaves nothing startable behind. */
  lemma {:induction false} GreedyLeast(g: Graph, done: seq<Id>, s: seq<Id>)
    requires Topological(g, done) && Topological(g, s) && done <= s
    requires Available(g, s) == {}
    ensures LexAtMost(Greedy(g, done), s)
    decreases g.Ids() - Elems(done)
  {
    var r := Greedy(g, done);
    if Available(g, done) == {} {
      assert AgreesUpTo(r, s, |done|);
    } else {
      var x := Least(Available(g, done));
      assert x in g.Ids() - Elems(done) && x in Elems(done + [x]);
      assert s[..|s|] == s;
      assert |done| < |s|;
      var y := s[|done|];
      assert s[..|done|] == done;
      assert y in Available(g, done) by {
        assert y !in done;
      }
      TopologicalSnoc(g, done, x);
      GreedyIsTopological(g, done + [x]);
      if x == y {
        GreedyLeast(g, done + [x], s);
      } else {
        BeforeIsTotalOrder();
        assert r[|done|] == (done + [x])[|done|] == x;
        assert r[..|done|] == (done + [x])[..|done|] == done;
        assert AgreesUpTo(r, s, |done|);
      }
    }
  }

  /** `_topo_order` is the lexicographically least of all complete topological orders: it depends on
      the tasks and their edges alone, never on the list they came in. */
  lemma OrderIsLeast(g: Graph, s: seq<Id>)
    requires g.Valid()
    requires Topological(g, s) && Elems(s) == g.Ids()
    ensures Topological(g, Order(g)) && LexAtMost(Order(g), s)
    ensures Elems(Order(g)) == g.Ids()
  {
    GreedyIsTopological(g, []);
    forall x | x in g.byId
      ensures !Ready(g, s, x)
    {
      assert x in Elems(s);
    }
    assert Available(g, s) == {};
    GreedyLeast(g, [], s);
    if Elems(Order(g)) != g.Ids() {
      var p := UnextractedCycle(g, Order(g));
      TopologicalHasNoCycle(g, s, p);
    }
  }

  // ---- it extracts every task exactly when there is no cycle ---------------------------------

  lemma {:induction false} ChainAscends(g: Graph, s: seq<Id>, p: seq<Id>, i: nat)
    requires Topological(g, s) && Chain(g, p) && |p| >= 2
    requires i < |s| && s[i] == p[|p| - 1]
    ensures p[0] in s[..i]
    decreases |p|
  {
    var n := |p| - 1;
    assert g.Waits(p[n - 1], p[n]);
    assert p[n - 1] in s[..i];
    if n > 1 {
      var j :| 0 <= j < i && s[j] == p[n - 1];
      ChainSlice(g, p, 0, n);
      ChainAscends(g, s, p[..n], j);
    }
  }

  lemma TopologicalHasNoCycle(g: Graph, s: seq<Id>, p: seq<Id>)
    requires Topological(g, s) && Elems(s) == g.Ids()
    ensures !Cycle(g, p)
  {
    if Cycle(g, p) {
      var x := p[0];
      assert x in Elems(s);
      var i :| 0 <= i < |s| && s[i] == x;
      ChainAscends(g, s, p, i);
    }
  }

  lemma UnextractedWaits(g: Graph, s: seq<Id>, rest: set<Id>, y: Id)
    requires g.Valid()
    requires Available(g, s) == {} && rest == g.Ids() - Elems(s)
    requires y in rest
    ensures WaitsInside(g, rest, y)
  {
    assert y !in Available(g, s) && y !in s;
    var d :| d in g.byId[y].blockedBy && d !in s;
    KnownTask(g, y);
    assert d in g.Blockers(y) && d in rest;
  }

  lemma UnextractedCycle(g: Graph, s: seq<Id>) returns (p: seq<Id>)
    requires g.Valid()
    requires Available(g, s) == {} && Elems(s) != g.Ids() && Elems(s) <= g.Ids()
    ensures Cycle(g, p)
  {
    var rest := g.Ids() - Elems(s);
    forall y {:trigger WaitsInside(g, rest, y)} | y in rest
      ensures WaitsInside(g, rest, y)
    {
      UnextractedWaits(g, s, rest, y);
    }
    assert rest != {} by {
      assert Elems(s) + rest == g.Ids();
    }
    var x :| x in rest;
    p := StuckMeansCycle(g, rest, x);
  }

  /** What `_ensure_acyclic` decides by counting. */
  lemma FullExactlyWhenAcyclic(g: Graph)
    requires g.Valid()
    ensures |Order(g)| == |g.tasks| <==> Acyclic(g)
    ensures Acyclic(g) ==> Topological(g, Order(g)) && Elems(Order(g)) == g.Ids()
  {
    GreedyIsTopological(g, []);
    var s := Order(g);
    DistinctSize(s);
    TaskCount(g);
    SubsetSize(Elems(s), g.Ids());
    if Elems(s) == g.Ids() {
      forall p
        ensures !Cycle(g, p)
      {
        TopologicalHasNoCycle(g, s, p);
      }
    } else {
      var p := UnextractedCycle(g, s);
    }
  }

  lemma TaskCount(g: Graph)
    requires g.Valid()
    ensures |g.Ids()| == |g.tasks|
  {
    var ids := seq(|g.tasks|, i requires 0 <= i < |g.tasks| => g.tasks[i].id);
    assert Distinct(ids);
    DistinctSize(ids);
    assert Elems(ids) == g.Ids() by {
      forall x | x in g.Ids()
        ensures x in Elems(ids)
      {
        var t :| t in g.tasks && t.id == x;
        var i :| 0 <= i < |g.tasks| && g.tasks[i] == t;
        assert ids[i] == x;
      }
    }
  }

  /** Two listings of the same tasks give the same order. */
  lemma OrderIgnoresListing(g: Graph, h: Graph)
    requires g.byId == h.byId
    ensures Order(g) == Order(h)
  {
    GreedyIgnoresListing(g, h, []);
  }

  lemma {:induction false} GreedyIgnoresListing(g: Graph, h: Graph, done: seq<Id>)
    requires g.byId == h.byId
    ensures Greedy(g, done) == Greedy(h, done)
    decreases g.Ids() - Elems(done)
  {
    assert Available(g, done) == Available(h, done);
    if Available(g, done) != {} {
      var x := Least(Available(g, done));
      assert x in g.Ids() - Elems(done) && x in Elems(done + [x]);
      GreedyIgnoresListing(g, h, done + [x]);
    }
  }

  // ---- the algorithm -----------------------------------------------------------------------

  /** One entry per mention of x among the things `id` waits for. */
  function Mentions(id: Id, deps: seq<Id>, x: Id): seq<Id> {
    if deps == [] then []
    else Mentions(id, deps[..|deps| - 1], x) + if deps[|deps| - 1] == x then [id] else []
  }

  /** What waits directly for x, in the order of the tasks. */
  function Dependents(tasks: seq<Task>, x: Id): seq<Id> {
    if tasks == [] then []
    else
      var last := tasks[|tasks| - 1];
      Dependents(tasks[..|tasks| - 1], x) + Mentions(last.id, last.blockedBy, x)
  }

  lemma {:induction false} MentionCount(id: Id, deps: seq<Id>, x: Id, c: Id)
    ensures multiset(Mentions(id, deps, x))[c] == if c == id then multiset(deps)[x] else 0
  {
    if deps != [] {
      var rest, last := deps[..|deps| - 1], deps[|deps| - 1];
      MentionCount(id, rest, x, c);
      assert deps == rest + [last];
    }
  }

  lemma {:induction false} DependentCountNone(tasks: seq<Task>, x: Id, c: Id)
    requires forall t :: t in tasks ==> t.id != c
    ensures multiset(Dependents(tasks, x))[c] == 0
  {
    if tasks != [] {
      var rest, last := tasks[..|tasks| - 1], tasks[|tasks| - 1];
      DependentCountNone(rest, x, c);
      MentionCount(last.id, last.blockedBy, x, c);
    }
  }

  lemma {:induction false} DependentCount(tasks: seq<Task>, x: Id, t: Task)
    requires t in tasks
    requires forall i, j :: 0 <= i < j < |tasks| ==> tasks[i].id != tasks[j].id
    ensures multiset(Dependents(tasks, x))[t.id] == multiset(t.blockedBy)[x]
  {
    var rest, last := tasks[..|tasks| - 1], tasks[|tasks| - 1];
    assert tasks == rest + [last];
    MentionCount(last.id, last.blockedBy, x, t.id);
    if t == last {
      DependentCountNone(rest, x, t.id);
    } else {
      assert t.id != last.id;
      DependentCount(rest, x, t);
    }
  }

  /** `_dependents_map` counts every edge once for each time it is declared. */
  lemma DependentsCount(g: Graph, x: Id, c: Id)
    requires g.Valid() && c in g.byId
    ensures multiset(Dependents(g.tasks, x))[c] == multiset(g.byId[c].blockedBy)[x]
    ensures c in Dependents(g.tasks, x) <==> x in g.byId[c].blockedBy
  {
    KnownTask(g, c);
    DependentCount(g.tasks, x, g.byId[c]);
    assert c in Dependents(g.tasks, x) <==> c in multiset(Dependents(g.tasks, x));
    assert x in g.byId[c].blockedBy <==> x in multiset(g.byId[c].blockedBy);
  }

  lemma DependentsKnown(g: Graph, x: Id)
    requires g.Valid()
    ensures forall c :: c in Dependents(g.tasks, x) ==> c in g.byId && x in g.byId[c].blockedBy
  {
    forall c | c in Dependents(g.tasks, x)
      ensures c in g.byId && x in g.byId[c].blockedBy
    {
      assert c in multiset(Dependents(g.tasks, x));
      if c !in g.byId {
        DependentCountNone(g.tasks, x, c);
      } else {
        DependentsCount(g, x, c);
      }
    }
  }

  /** The inner loop: one entry for each blocker this task names. */
  method AddMentions(before: map<Id, seq<Id>>, t: Task) returns (dependents: map<Id, seq<Id>>)
    requires forall d :: d in t.blockedBy ==> d in before
    ensures dependents.Keys == before.Keys
    ensures forall x :: x in before ==> dependents[x] == before[x] + Mentions(t.id, t.blockedBy, x)
  {
    dependents := before;
    for j := 0 to |t.blockedBy|
      invariant dependents.Keys == before.Keys
      invariant forall x :: x in before ==> dependents[x] == before[x] + Mentions(t.id, t.blockedBy[..j], x)
    {
      var dep := t.blockedBy[j];
      assert t.blockedBy[..j + 1][..j] == t.blockedBy[..j];
      dependents := dependents[dep := dependents[dep] + [t.id]];
    }
    assert t.blockedBy[..|t.blockedBy|] == t.blockedBy;
  }

  ghost predicate DependentsUpTo(dependents: map<Id, seq<Id>>, tasks: seq<Task>, i: nat)
    requires i <= |tasks|
  {
    forall x :: x in dependents ==> dependents[x] == Dependents(tasks[..i], x)
  }

  lemma DependentsUpToNext(before: map<Id, seq<Id>>, after: map<Id, seq<Id>>, tasks: seq<Task>, i: nat)
    requires i < |tasks| && DependentsUpTo(before, tasks, i) && after.Keys == before.Keys
    requires forall x :: x in before ==> after[x] == before[x] + Mentions(tasks[i].id, tasks[i].blockedBy, x)
    ensures DependentsUpTo(after, tasks, i + 1)
  {
    forall x | x in after
      ensures after[x] == Dependents(tasks[..i + 1], x)
    {
      DependentsSnoc(tasks, i, x);
    }
  }

  lemma BlockersInIds(g: Graph, i: nat)
    requires g.Valid() && i < |g.tasks|
    ensures forall d :: d in g.tasks[i].blockedBy ==> d in g.Ids()
  {
    assert g.tasks[i] in g.tasks;
  }

  method DependentsMap(g: Graph) returns (dependents: map<Id, seq<Id>>)
    requires g.Valid()
    ensures dependents.Keys == g.Ids()
    ensures forall x :: x in dependents ==> dependents[x] == Dependents(g.tasks, x)
  {
    dependents := map x | x in g.byId :: [];
    for i := 0 to |g.tasks|
      invariant dependents.Keys == g.Ids()
      invariant DependentsUpTo(dependents, g.tasks, i)
    {
      BlockersInIds(g, i);
      ghost var before := dependents;
      dependents := AddMentions(dependents, g.tasks[i]);
      DependentsUpToNext(before, dependents, g.tasks, i);
    }
    assert g.tasks[..|g.tasks|] == g.tasks;
  }

  lemma MentionsSnoc(id: Id, deps: seq<Id>, j: nat, x: Id)
    requires j < |deps|
    ensures Mentions(id, deps[..j + 1], x) == Mentions(id, deps[..j], x) + if deps[j] == x then [id] else []
  {
    assert deps[..j + 1][..j] == deps[..j];
  }

  lemma DependentsSnoc(tasks: seq<Task>, i: nat, x: Id)
    requires i < |tasks|
    ensures Dependents(tasks[..i + 1], x) == Dependents(tasks[..i], x) + Mentions(tasks[i].id, tasks[i].blockedBy, x)
  {
    assert tasks[..i + 1][..i] == tasks[..i];
  }

  /** How many of the declared blockers have not come yet. */
  function Missing(deps: seq<Id>, done: seq<Id>): nat {
    if deps == [] then 0
    else Missing(deps[..|deps| - 1], done) + if deps[|deps| - 1] in done then 0 else 1
  }

  lemma {:induction false} MissingNone(deps: seq<Id>)
    ensures Missing(deps, []) == |deps|
  {
    if deps != [] {
      MissingNone(deps[..|deps| - 1]);
    }
  }

  lemma {:induction false} MissingZero(deps: seq<Id>, done: seq<Id>)
    ensures Missing(deps, done) == 0 <==> forall d :: d in deps ==> d in done
  {
    if deps != [] {
      var rest, last := deps[..|deps| - 1], deps[|deps| - 1];
      MissingZero(rest, done);
      assert deps == rest + [last];
    }
  }

  lemma {:induction false} MissingDrops(deps: seq<Id>, done: seq<Id>, x: Id)
    requires x !in done
    ensures Missing(deps, done) == Missing(deps, done + [x]) + multiset(deps)[x]
  {
    if deps != [] {
      var rest, last := deps[..|deps| - 1], deps[|deps| - 1];
      MissingDrops(rest, done, x);
      assert deps == rest + [last];
    }
  }
}
