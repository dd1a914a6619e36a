/** The tasks cut into maximal lines of work (src/rein/dag.py). */
module Chains {
  import opened Ids
  import opened TaskGraph
  import opened TopoOrder
  import opened Kahn

  /** b waits for a and nothing else, and nothing else waits for a. */
  ghost predicate Link(g: Graph, a: Id, b: Id) {
    b in g.byId && g.byId[b].blockedBy == [a] && Dependents(g.tasks, a) == [b]
  }

  /** A list with unique ids, indexed. Whether its dependencies are known is not asked here. */
  ghost predicate Listed(g: Graph) {
    UniqueIds(g.tasks) && Indexes(g.byId, g.tasks)
  }

  ghost predicate Continues(g: Graph, b: Id) {
    exists a :: Link(g, a, b)
  }

  ghost predicate LinksOn(g: Graph, a: Id) {
    exists b :: Link(g, a, b)
  }

  ghost predicate LinkPath(g: Graph, p: seq<Id>) {
    && p != []
    && (forall i :: 0 <= i < |p| ==> p[i] in g.byId)
    && (forall i :: 0 < i < |p| ==> Link(g, p[i - 1], p[i]))
  }

  /** A line of work that nothing continues at either end. */
  ghost predicate Maximal(g: Graph, p: seq<Id>) {
    LinkPath(g, p) && !Continues(g, p[0]) && !LinksOn(g, p[|p| - 1])
  }

  ghost function Heads(g: Graph, tasks: seq<Task>): seq<Id> {
    if tasks == [] then []
    else
      var rest, last := tasks[..|tasks| - 1], tasks[|tasks| - 1];
      Heads(g, rest) + if Continues(g, last.id) then [] else [last.id]
  }

  function FirstOf(found: seq<seq<Id>>): (heads: seq<Id>)
    requires forall i :: 0 <= i < |found| ==> found[i] != []
    ensures |heads| == |found| && forall i :: 0 <= i < |found| ==> heads[i] == found[i][0]
  {
    seq(|found|, i requires 0 <= i < |found| => found[i][0])
  }

  /** What `chains` returns: maximal lines, one for each task that continues no other, in list order. */
  ghost predicate IsCut(g: Graph, found: seq<seq<Id>>) {
    && (forall i :: 0 <= i < |found| ==> Maximal(g, found[i]))
    && FirstOf(found) == Heads(g, g.tasks)
  }

  /** In a list, that is: the one names the other once and nothing else, and no other task names it. */
  lemma LinkExactly(g: Graph, a: Id, t: Task)
    requires Listed(g) && t in g.tasks
    ensures Link(g, a, t.id) <==> t.blockedBy == [a] && forall u :: u in g.tasks && u.id != t.id ==> a !in u.blockedBy
  {
    if t.blockedBy == [a] {
      var all := Dependents(g.tasks, a);
      DependentCount(g.tasks, a, t);
      forall u | u in g.tasks ensures u.id in all <==> a in u.blockedBy {
        DependentCount(g.tasks, a, u);
        assert u.id in all <==> u.id in multiset(all);
        assert a in u.blockedBy <==> a in multiset(u.blockedBy);
      }
      if forall u :: u in g.tasks && u.id != t.id ==> a !in u.blockedBy {
        forall c | c in all ensures c == t.id {
          DependentsAreListed(g.tasks, a, c);
        }
        OnlyOne(all, t.id);
      }
    }
  }

  lemma DependentsAreListed(tasks: seq<Task>, x: Id, c: Id)
    requires c in Dependents(tasks, x)
    ensures exists u :: u in tasks && u.id == c
  {
    assert c in multiset(Dependents(tasks, x));
    if forall u :: u in tasks ==> u.id != c {
      DependentCountNone(tasks, x, c);
    }
  }

  lemma {:induction false} AllTheSame(s: seq<Id>, x: Id)
    requires forall c :: c in s ==> c == x
    ensures multiset(s)[x] == |s|
  {
    if s != [] {
      var rest := s[..|s| - 1];
      assert s == rest + [s[|s| - 1]] && s[|s| - 1] in s;
      assert forall c :: c in rest ==> c in s;
      AllTheSame(rest, x);
    }
  }

  lemma OnlyOne(s: seq<Id>, x: Id)
    requires (forall c :: c in s ==> c == x) && multiset(s)[x] == 1
    ensures s == [x]
  {
    AllTheSame(s, x);
    assert s[0] in s;
  }

  // ---- links are one to one ----------------------------------------------------------------

  lemma LinkUnique(g: Graph, a: Id, b: Id, a': Id, b': Id)
    requires Link(g, a, b) && Link(g, a', b')
    ensures a == a' <==> b == b'
  {
    if a == a' {
      assert [b] == [b'];
      assert [b][0] == [b'][0];
    }
    if b == b' {
      assert [a] == [a'];
      assert [a][0] == [a'][0];
    }
  }

  /** Two lines that meet run together from there on, and back to the shorter one's start. */
  lemma {:induction false} MeetingPaths(g: Graph, p: seq<Id>, q: seq<Id>, i: nat, j: nat)
    requires LinkPath(g, p) && LinkPath(g, q) && i < |p| && j < |q| && p[i] == q[j] && i <= j
    ensures p[0] == q[j - i]
  {
    if i > 0 {
      LinkUnique(g, p[i - 1], p[i], q[j - 1], q[j]);
      MeetingPaths(g, p, q, i - 1, j - 1);
    }
  }

  /** A line from a head that is not at its end can be followed by one task only. */
  lemma {:induction false} SameStartSameLine(g: Graph, p: seq<Id>, q: seq<Id>, i: nat)
    requires LinkPath(g, p) && Maximal(g, q) && p[0] == q[0] && i < |p|
    ensures i < |q| && p[i] == q[i]
  {
    if i > 0 {
      SameStartSameLine(g, p, q, i - 1);
      assert Link(g, p[i - 1], p[i]);
      assert LinksOn(g, q[i - 1]);
      if i < |q| {
        LinkUnique(g, p[i - 1], p[i], q[i - 1], q[i]);
      }
    }
  }

  // ---- the algorithm -----------------------------------------------------------------------

  function Get(m: map<Id, seq<Id>>, x: Id): seq<Id> {
    if x in m then m[x] else []
  }

  lemma OneUpstream(before: map<Id, seq<Id>>, met: map<Id, seq<Id>>, t: Task, j: nat)
    requires j < |t.blockedBy|
    requires forall x :: Get(met, x) == Get(before, x) + Mentions(t.id, t.blockedBy[..j], x)
    ensures var upstream := t.blockedBy[j];
            var next := met[upstream := Get(met, upstream) + [t.id]];
            forall x :: Get(next, x) == Get(before, x) + Mentions(t.id, t.blockedBy[..j + 1], x)
  {
    var upstream := t.blockedBy[j];
    var next := met[upstream := Get(met, upstream) + [t.id]];
    forall x ensures Get(next, x) == Get(before, x) + Mentions(t.id, t.blockedBy[..j + 1], x) {
      assert Get(met, x) == Get(before, x) + Mentions(t.id, t.blockedBy[..j], x);
      MentionsSnoc(t.id, t.blockedBy, j, x);
    }
  }

  /** `setdefault(upstream, []).append(task.id)` for each blocker this task names. */
  method AddUpstreams(before: map<Id, seq<Id>>, t: Task) returns (dependents: map<Id, seq<Id>>)
    ensures forall x :: Get(dependents, x) == Get(before, x) + Mentions(t.id, t.blockedBy, x)
  {
    dependents := before;
    for j := 0 to |t.blockedBy|
      invariant forall x :: Get(dependents, x) == Get(before, x) + Mentions(t.id, t.blockedBy[..j], x)
    {
      OneUpstream(before, dependents, t, j);
      var upstream := t.blockedBy[j];
      dependents := dependents[upstream := Get(dependents, upstream) + [t.id]];
    }
    assert t.blockedBy[..|t.blockedBy|] == t.blockedBy;
  }

  method AllDependents(g: Graph) returns (dependents: map<Id, seq<Id>>)
    ensures forall x :: Get(dependents, x) == Dependents(g.tasks, x)
  {
    dependents := map x | x in g.byId :: [];
    for i := 0 to |g.tasks|
      invariant forall x :: Get(dependents, x) == Dependents(g.tasks[..i], x)
    {
      dependents := AddUpstreams(dependents, g.tasks[i]);
      forall x
        ensures Get(dependents, x) == Dependents(g.tasks[..i + 1], x)
      {
        DependentsSnoc(g.tasks, i, x);
      }
    }
    assert g.tasks[..|g.tasks|] == g.tasks;
  }

  ghost predicate FollowingUpTo(g: Graph, following: map<Id, Id>, n: nat)
    requires n <= |g.tasks|
  {
    && (forall a :: a in following ==> Link(g, a, following[a]))
    && (forall k, a :: 0 <= k < n && Link(g, a, g.tasks[k].id) ==> a in following)
  }

  lemma FollowingStep(g: Graph, following: map<Id, Id>, i: nat)
    requires Listed(g) && i < |g.tasks| && FollowingUpTo(g, following, i)
    ensures var t := g.tasks[i];
            if |t.blockedBy| == 1 && Dependents(g.tasks, t.blockedBy[0]) == [t.id]
            then FollowingUpTo(g, following[t.blockedBy[0] := t.id], i + 1)
            else FollowingUpTo(g, following, i + 1)
  {
    var t := g.tasks[i];
    assert t in g.tasks && g.byId[t.id] == t;
    if |t.blockedBy| == 1 && Dependents(g.tasks, t.blockedBy[0]) == [t.id] {
      assert t.blockedBy == [t.blockedBy[0]];
      assert Link(g, t.blockedBy[0], t.id);
      forall a | Link(g, a, t.id)
        ensures a == t.blockedBy[0]
      {
        LinkUnique(g, a, t.id, t.blockedBy[0], t.id);
      }
    }
  }

  method Following(g: Graph) returns (following: map<Id, Id>)
    requires Listed(g)
    ensures forall a :: a in following ==> Link(g, a, following[a])
    ensures forall a, b :: Link(g, a, b) ==> a in following
  {
    var dependents := AllDependents(g);
    following := map[];
    for i := 0 to |g.tasks|
      invariant FollowingUpTo(g, following, i)
    {
      var t := g.tasks[i];
      FollowingStep(g, following, i);
      if |t.blockedBy| == 1 && Get(dependents, t.blockedBy[0]) == [t.id] {
        following := following[t.blockedBy[0] := t.id];
      }
    }
    forall a, b | Link(g, a, b)
      ensures a in following
    {
      var k :| 0 <= k < |g.tasks| && g.tasks[k] == g.byId[b];
    }
  }

  /** One line, walked from its head. */
  method Walk(g: Graph, following: map<Id, Id>, head: Id) returns (chain: seq<Id>)
    requires forall a :: a in following ==> Link(g, a, following[a])
    requires forall a, b :: Link(g, a, b) ==> a in following
    requires head in g.byId && !Continues(g, head)
    ensures Maximal(g, chain) && chain[0] == head
  {
    chain := [head];
    while chain[|chain| - 1] in following
      invariant LinkPath(g, chain) && Distinct(chain) && chain[0] == head
      decreases |g.Ids()| - |chain|
    {
      var next := following[chain[|chain| - 1]];
      NeverBack(g, chain, next);
      chain := chain + [next];
      PathFits(g, chain);
    }
  }

  lemma PathFits(g: Graph, p: seq<Id>)
    requires LinkPath(g, p) && Distinct(p)
    ensures |p| <= |g.Ids()|
  {
    DistinctSize(p);
    assert Elems(p) <= g.Ids();
    SubsetSize(Elems(p), g.Ids());
  }

  method Chains(g: Graph) returns (found: seq<seq<Id>>)
    requires Listed(g)
    ensures IsCut(g, found)
  {
    var following := Following(g);
    var continues := following.Values;
    found := [];
    for i := 0 to |g.tasks|
      invariant forall k :: 0 <= k < |found| ==> Maximal(g, found[k])
      invariant FirstOf(found) == Heads(g, g.tasks[..i])
    {
      var t := g.tasks[i];
      assert t in g.tasks;
      assert g.tasks[..i + 1][..i] == g.tasks[..i];
      ContinuesIsAValue(g, following, t.id);
      if t.id !in continues {
        var chain := Walk(g, following, t.id);
        assert FirstOf(found + [chain]) == FirstOf(found) + [t.id];
        found := found + [chain];
      }
    }
    assert g.tasks[..|g.tasks|] == g.tasks;
  }

  lemma ContinuesIsAValue(g: Graph, following: map<Id, Id>, b: Id)
    requires forall a :: a in following ==> Link(g, a, following[a])
    requires forall a, c :: Link(g, a, c) ==> a in following
    ensures b in following.Values <==> Continues(g, b)
  {
    if Continues(g, b) {
      var a :| Link(g, a, b);
      LinkUnique(g, a, b, a, following[a]);
      assert following[a] in following.Values;
    }
    if b in following.Values {
      var a :| a in following && following[a] == b;
      assert Link(g, a, b);
    }
  }

  /** The walk never meets a task of its own: it ends, whatever the list holds. */
  lemma NeverBack(g: Graph, chain: seq<Id>, next: Id)
    requires LinkPath(g, chain) && Distinct(chain)
    requires !Continues(g, chain[0]) && Link(g, chain[|chain| - 1], next)
    ensures next !in chain && LinkPath(g, chain + [next]) && Distinct(chain + [next])
  {
    var n := |chain| - 1;
    if next in chain {
      var k :| 0 <= k < |chain| && chain[k] == next;
      if k > 0 {
        LinkUnique(g, chain[k - 1], chain[k], chain[n], next);
      }
    }
  }

  // ---- a partition -------------------------------------------------------------------------

  lemma {:induction false} HeadsDistinct(g: Graph, tasks: seq<Task>)
    requires UniqueIds(tasks)
    ensures Distinct(Heads(g, tasks))
    ensures forall x :: x in Heads(g, tasks) <==> (exists t :: t in tasks && t.id == x) && !Continues(g, x)
  {
    if tasks != [] {
      var rest, last := tasks[..|tasks| - 1], tasks[|tasks| - 1];
      assert tasks == rest + [last];
      HeadsDistinct(g, rest);
    }
  }

  lemma HeadOnlyAtStart(g: Graph, q: seq<Id>, k: nat)
    requires LinkPath(g, q) && k < |q| && !Continues(g, q[k])
    ensures k == 0
  {
    forall i | 0 < i < |q|
      ensures Continues(g, q[i])
    {
      assert Link(g, q[i - 1], q[i]);
    }
  }

  /** No task is in two lines, or twice in one. */
  lemma EachAtMostOnce(g: Graph, found: seq<seq<Id>>, m: nat, i: nat, n: nat, j: nat)
    requires Listed(g) && IsCut(g, found)
    requires m < |found| && i < |found[m]| && n < |found| && j < |found[n]|
    requires found[m][i] == found[n][j]
    ensures m == n && i == j
  {
    EachStartsAtAHead(g, found, m);
    EachStartsAtAHead(g, found, n);
    if i <= j {
      MeetAtHead(g, found[m], found[n], i, j);
    } else {
      MeetAtHead(g, found[n], found[m], j, i);
    }
    StartsDiffer(g, found, m, n);
  }

  lemma EachStartsAtAHead(g: Graph, found: seq<seq<Id>>, m: nat)
    requires Listed(g) && IsCut(g, found) && m < |found|
    ensures LinkPath(g, found[m]) && !Continues(g, found[m][0])
  {
    HeadsDistinct(g, g.tasks);
    assert FirstOf(found)[m] == found[m][0];
    assert FirstOf(found)[m] in Heads(g, g.tasks);
  }

  lemma StartsDiffer(g: Graph, found: seq<seq<Id>>, m: nat, n: nat)
    requires Listed(g) && IsCut(g, found) && m < |found| && n < |found| && found[m][0] == found[n][0]
    ensures m == n
  {
    HeadsDistinct(g, g.tasks);
    assert FirstOf(found)[m] == found[m][0] && FirstOf(found)[n] == found[n][0];
  }

  lemma MeetAtHead(g: Graph, p: seq<Id>, q: seq<Id>, i: nat, j: nat)
    requires LinkPath(g, p) && LinkPath(g, q) && !Continues(g, p[0])
    requires i < |p| && j < |q| && p[i] == q[j] && i <= j
    ensures i == j && p[0] == q[0]
  {
    MeetingPaths(g, p, q, i, j);
    HeadOnlyAtStart(g, q, j - i);
  }

  ghost predicate Covered(found: seq<seq<Id>>, x: Id) {
    exists m, i :: 0 <= m < |found| && 0 <= i < |found[m]| && found[m][i] == x
  }

  /** Two linked tasks are neighbours in one line: no two lines can be joined. */
  lemma LinksStayTogether(g: Graph, found: seq<seq<Id>>, m: nat, i: nat, b: Id)
    requires IsCut(g, found) && m < |found| && i < |found[m]|
    requires Link(g, found[m][i], b)
    ensures i + 1 < |found[m]| && found[m][i + 1] == b
  {
    var p := found[m];
    assert LinksOn(g, p[i]);
    if i + 1 < |p| {
      LinkUnique(g, p[i], p[i + 1], p[i], b);
    }
  }

  /** A task whose only blocker is not in the list, and has no other dependent: it continues a line
      that has no start. */
  ghost predicate Stray(g: Graph, b: Id) {
    exists a :: Link(g, a, b) && a !in g.byId
  }

  ghost predicate LinkCycle(g: Graph, p: seq<Id>) {
    LinkPath(g, p) && |p| >= 2 && p[0] == p[|p| - 1]
  }

  ghost predicate NoStray(g: Graph) {
    forall b :: !Stray(g, b)
  }

  ghost predicate NoLinkCycle(g: Graph) {
    forall c :: !LinkCycle(g, c)
  }

  lemma ExtendBack(g: Graph, p: seq<Id>, a: Id)
    requires LinkPath(g, p) && Distinct(p) && NoLinkCycle(g)
    requires Link(g, a, p[0]) && a in g.byId
    ensures LinkPath(g, [a] + p) && Distinct([a] + p)
  {
    var longer := [a] + p;
    assert LinkPath(g, longer);
    if a in p {
      var k :| 0 <= k < |p| && p[k] == a;
      var c := longer[..k + 2];
      assert c[|c| - 1] == p[k];
      assert LinkPath(g, c);
      assert LinkCycle(g, c);
    }
  }

  /** The line through a task, walked back as far as it goes. */
  lemma {:induction false} WalkToHead(g: Graph, p: seq<Id>) returns (q: seq<Id>)
    requires LinkPath(g, p) && Distinct(p) && NoStray(g) && NoLinkCycle(g)
    ensures LinkPath(g, q) && !Continues(g, q[0]) && q[|q| - 1] == p[|p| - 1]
    decreases |g.Ids()| - |p|
  {
    if Continues(g, p[0]) {
      var a :| Link(g, a, p[0]);
      assert !Stray(g, p[0]);
      ExtendBack(g, p, a);
      PathFits(g, [a] + p);
      q := WalkToHead(g, [a] + p);
    } else {
      q := p;
    }
  }

  lemma HeadIsFound(g: Graph, found: seq<seq<Id>>, h: Id) returns (m: nat)
    requires Listed(g) && IsCut(g, found) && h in g.byId && !Continues(g, h)
    ensures m < |found| && found[m] != [] && found[m][0] == h
  {
    HeadsDistinct(g, g.tasks);
    assert h in Heads(g, g.tasks);
    m :| 0 <= m < |FirstOf(found)| && FirstOf(found)[m] == h;
  }

  lemma StrayIsLost(g: Graph, found: seq<seq<Id>>, b: Id)
    requires Listed(g) && IsCut(g, found) && Stray(g, b)
    ensures !Covered(found, b)
  {
    var a :| Link(g, a, b) && a !in g.byId;
    if Covered(found, b) {
      var m, i :| 0 <= m < |found| && 0 <= i < |found[m]| && found[m][i] == b;
      var p := found[m];
      if i > 0 {
        LinkUnique(g, a, b, p[i - 1], p[i]);
      }
    }
  }

  lemma CycleIsLost(g: Graph, found: seq<seq<Id>>, c: seq<Id>)
    requires Listed(g) && IsCut(g, found) && LinkCycle(g, c)
    ensures !Covered(found, c[0])
  {
    if Covered(found, c[0]) {
      var m, i :| 0 <= m < |found| && 0 <= i < |found[m]| && found[m][i] == c[0];
      NotOnACycle(g, found[m], i, c);
    }
  }

  /** Walking back round a cycle from a task of a line would reach the line's start, which continues
      nothing. */
  lemma {:induction false} NotOnACycle(g: Graph, p: seq<Id>, i: nat, c: seq<Id>)
    requires Maximal(g, p) && i < |p| && LinkCycle(g, c)
    ensures p[i] != c[0]
    decreases i
  {
    var n := |c| - 1;
    assert Link(g, c[n - 1], c[n]);
    if i > 0 && p[i] == c[0] {
      LinkUnique(g, c[n - 1], c[n], p[i - 1], p[i]);
      NotOnACycle(g, p, i - 1, [c[n - 1]] + c[..n]);
    }
  }

  /** Every task is in a line exactly when none is stray and no links close a circle. */
  lemma CoversExactly(g: Graph, found: seq<seq<Id>>)
    requires Listed(g) && IsCut(g, found)
    ensures (forall x :: x in g.byId ==> Covered(found, x)) <==> NoStray(g) && NoLinkCycle(g)
  {
    if NoStray(g) && NoLinkCycle(g) {
      forall x | x in g.byId
        ensures Covered(found, x)
      {
        var q := WalkToHead(g, [x]);
        var m := HeadIsFound(g, found, q[0]);
        SameStartSameLine(g, q, found[m], |q| - 1);
      }
    } else if !NoStray(g) {
      var b :| Stray(g, b);
      StrayIsLost(g, found, b);
      assert b in g.byId;
    } else {
      var c :| LinkCycle(g, c);
      CycleIsLost(g, found, c);
      assert c[0] in g.byId;
    }
  }

  lemma LinkIsWait(g: Graph, a: Id, b: Id)
    requires g.Valid() && Link(g, a, b)
    ensures g.Waits(a, b) && a in g.byId
  {
    KnownTask(g, b);
    assert a in g.Blockers(b);
  }

  /** On the graph `from_tasks` accepts, the lines are a partition. */
  lemma CoversEveryAcceptedGraph(g: Graph, found: seq<seq<Id>>)
    requires g.Valid() && Acyclic(g) && IsCut(g, found)
    ensures forall x :: x in g.byId ==> Covered(found, x)
  {
    forall a, b | Link(g, a, b)
      ensures g.Waits(a, b) && a in g.byId
    {
      LinkIsWait(g, a, b);
    }
    forall c
      ensures !LinkCycle(g, c)
    {
      assert LinkCycle(g, c) ==> Cycle(g, c);
    }
    CoversExactly(g, found);
  }

  /** A list where a task is lost: its one blocker is not in it. */
  lemma StrayExample(g: Graph, found: seq<seq<Id>>, t: Task, upstream: Id)
    requires Listed(g) && IsCut(g, found)
    requires g.tasks == [t] && t.blockedBy == [upstream] && upstream != t.id
    ensures found == []
  {
    assert t in g.tasks && g.byId[t.id] == t;
    assert Mentions(t.id, [upstream][..0], upstream) == [];
    assert Dependents(g.tasks[..0], upstream) == [];
    assert Link(g, upstream, t.id);
    assert Heads(g, g.tasks[..0]) == [];
    assert Heads(g, g.tasks) == [];
  }
}
