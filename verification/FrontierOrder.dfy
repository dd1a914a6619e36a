/** The order in which a frontier is consumed, the same in every run (src/rein/dag.py). */
module FrontierOrder {
  import opened Ids
  import opened TaskGraph
  import opened TopoOrder
  import opened Frontier
  import opened CriticalPath

  /** What the order looks at, the first that differs deciding. */
  datatype Rank = Rank(kind: int, fan: int, path: int, id: Id)

  predicate Sooner(a: Rank, b: Rank) {
    if a.kind != b.kind then a.kind < b.kind
    else if a.fan != b.fan then a.fan > b.fan
    else if a.path != b.path then a.path < b.path
    else Before(a.id, b.id)
  }

  lemma SoonerConnects(a: Rank, b: Rank)
    ensures a != b ==> Sooner(a, b) != Sooner(b, a)
    ensures !Sooner(a, a)
  {
    BeforeConnects(a.id, b.id);
    BeforeConnects(a.id, a.id);
  }

  lemma SoonerChains(a: Rank, b: Rank, c: Rank)
    requires Sooner(a, b) && Sooner(b, c)
    ensures Sooner(a, c)
  {
    if a.kind == b.kind == c.kind && a.fan == b.fan == c.fan && a.path == b.path == c.path {
      BeforeChains(a.id, b.id, c.id);
    }
  }

  /** `fan_out`: how many tasks wait directly for it. */
  function FanOut(g: Graph, x: Id): nat {
    |Dependents(g.tasks, x)|
  }

  /** Foundation first, then the most waited for, then the critical path, then ascending id. */
  function RankOf(g: Graph, critical: seq<Id>, x: Id): Rank
    requires x in g.byId
  {
    Rank(if g.byId[x].entry.foundation then 0 else 1, FanOut(g, x), if x in critical then 0 else 1, x)
  }

  predicate Goes(g: Graph, critical: seq<Id>, x: Id, y: Id)
    requires x in g.byId && y in g.byId
  {
    Sooner(RankOf(g, critical, x), RankOf(g, critical, y))
  }

  ghost predicate Known(g: Graph, s: seq<Id>) {
    forall x :: x in s ==> x in g.byId
  }

  ghost predicate InOrder(g: Graph, critical: seq<Id>, s: seq<Id>)
    requires Known(g, s)
  {
    forall i, j :: 0 <= i < j < |s| ==> Goes(g, critical, s[i], s[j])
  }

  function InsertByRank(g: Graph, critical: seq<Id>, x: Id, s: seq<Id>): (r: seq<Id>)
    requires x in g.byId && Known(g, s)
    ensures forall y :: y in r <==> y == x || y in s
  {
    if s == [] then [x]
    else if Goes(g, critical, s[0], x) then [s[0]] + InsertByRank(g, critical, x, s[1..])
    else [x] + s
  }

  function SortByRank(g: Graph, critical: seq<Id>, s: seq<Id>): (r: seq<Id>)
    requires Known(g, s)
    ensures forall y :: y in r <==> y in s
  {
    if s == [] then []
    else
      assert s == [s[0]] + s[1..];
      InsertByRank(g, critical, s[0], SortByRank(g, critical, s[1..]))
  }

  lemma {:induction false} InsertByRankInOrder(g: Graph, critical: seq<Id>, x: Id, s: seq<Id>)
    requires x in g.byId && Known(g, s) && x !in s && InOrder(g, critical, s)
    ensures InOrder(g, critical, InsertByRank(g, critical, x, s))
  {
    if s != [] {
      SoonerConnects(RankOf(g, critical, s[0]), RankOf(g, critical, x));
      if Goes(g, critical, s[0], x) {
        InsertByRankInOrder(g, critical, x, s[1..]);
        var rest := InsertByRank(g, critical, x, s[1..]);
        forall j | 0 <= j < |rest|
          ensures Goes(g, critical, s[0], rest[j])
        {
          assert rest[j] in rest;
          if rest[j] != x {
            var k :| 0 <= k < |s[1..]| && s[1..][k] == rest[j];
            assert s[k + 1] == rest[j];
          }
        }
      } else {
        forall j | 0 <= j < |s|
          ensures Goes(g, critical, x, s[j])
        {
          if j > 0 {
            SoonerChains(RankOf(g, critical, x), RankOf(g, critical, s[0]), RankOf(g, critical, s[j]));
          }
        }
      }
    }
  }

  lemma {:induction false} SortByRankInOrder(g: Graph, critical: seq<Id>, s: seq<Id>)
    requires Known(g, s) && Distinct(s)
    ensures InOrder(g, critical, SortByRank(g, critical, s))
  {
    if s != [] {
      SortByRankInOrder(g, critical, s[1..]);
      InsertByRankInOrder(g, critical, s[0], SortByRank(g, critical, s[1..]));
    }
  }

  /** Only one list of these tasks is in order. */
  lemma {:induction false} OnlyOneOrder(g: Graph, critical: seq<Id>, s: seq<Id>, t: seq<Id>)
    requires Known(g, s) && Known(g, t) && InOrder(g, critical, s) && InOrder(g, critical, t)
    requires forall x :: x in s <==> x in t
    ensures s == t
  {
    assert (s == [] || s[0] in s) && (t == [] || t[0] in t);
    if s != [] {
      assert s[0] in t;
      SameHead(g, critical, s, t);
      forall x
        ensures x in s[1..] <==> x in t[1..]
      {
        HeadOnce(g, critical, s);
        HeadOnce(g, critical, t);
        assert s == [s[0]] + s[1..] && t == [t[0]] + t[1..];
      }
      OnlyOneOrder(g, critical, s[1..], t[1..]);
      assert s == [s[0]] + s[1..] && t == [t[0]] + t[1..];
    }
  }

  lemma HeadOnce(g: Graph, critical: seq<Id>, s: seq<Id>)
    requires s != [] && Known(g, s) && InOrder(g, critical, s)
    ensures s[0] !in s[1..]
  {
    if s[0] in s[1..] {
      var k :| 0 <= k < |s[1..]| && s[1..][k] == s[0];
      assert Goes(g, critical, s[0], s[k + 1]);
      SoonerConnects(RankOf(g, critical, s[0]), RankOf(g, critical, s[0]));
    }
  }

  lemma SameHead(g: Graph, critical: seq<Id>, s: seq<Id>, t: seq<Id>)
    requires s != [] && t != [] && Known(g, s) && Known(g, t) && InOrder(g, critical, s) && InOrder(g, critical, t)
    requires s[0] in t && t[0] in s
    ensures s[0] == t[0]
  {
    if s[0] != t[0] {
      var i :| 0 <= i < |t| && t[i] == s[0];
      var j :| 0 <= j < |s| && s[j] == t[0];
      assert Goes(g, critical, t[0], s[0]) && Goes(g, critical, s[0], t[0]);
      SoonerConnects(RankOf(g, critical, s[0]), RankOf(g, critical, t[0]));
    }
  }

  // ---- the frontier ----------------------------------------------------------------------------

  /** `order_frontier`. */
  function OrderFrontier(g: Graph, critical: seq<Id>): seq<Id>
    requires g.Valid()
  {
    FrontierKnown(g);
    SortByRank(g, critical, Frontier.Frontier(g))
  }

  lemma FrontierKnown(g: Graph)
    requires g.Valid()
    ensures Known(g, Frontier.Frontier(g))
  {
    forall x | x in Frontier.Frontier(g)
      ensures x in g.byId
    {
      FrontierHolds(g, x);
    }
  }

  lemma FrontierInOrder(g: Graph, critical: seq<Id>)
    requires g.Valid()
    ensures Known(g, OrderFrontier(g, critical)) && InOrder(g, critical, OrderFrontier(g, critical))
    ensures forall x :: x in OrderFrontier(g, critical) <==> x in g.byId && CanStart(g, g.byId[x])
  {
    FrontierKnown(g);
    FrontierAscends(g);
    AscendingIsDistinct(Frontier.Frontier(g));
    SortByRankInOrder(g, critical, Frontier.Frontier(g));
    forall x
      ensures x in Frontier.Frontier(g) <==> x in g.byId && CanStart(g, g.byId[x])
    {
      FrontierHolds(g, x);
    }
  }

  /** How often the tasks name x as what they wait for. */
  function Named(tasks: seq<Task>, x: Id): nat {
    if tasks == [] then 0 else Named(tasks[..|tasks| - 1], x) + multiset(tasks[|tasks| - 1].blockedBy)[x]
  }

  lemma {:induction false} FanOutCounts(tasks: seq<Task>, x: Id)
    ensures |Dependents(tasks, x)| == Named(tasks, x)
  {
    if tasks != [] {
      FanOutCounts(tasks[..|tasks| - 1], x);
      MentionsCount(tasks[|tasks| - 1].id, tasks[|tasks| - 1].blockedBy, x);
    }
  }

  lemma {:induction false} MentionsCount(id: Id, deps: seq<Id>, x: Id)
    ensures |Mentions(id, deps, x)| == multiset(deps)[x]
  {
    if deps != [] {
      MentionsCount(id, deps[..|deps| - 1], x);
      assert deps == deps[..|deps| - 1] + [deps[|deps| - 1]];
    }
  }

  /** What that order is, of any two tasks in it: no foundation task behind one that is none; of one kind,
      none behind one that fewer name; of those, no critical one behind one that is not; and else by id. */
  lemma ConsumedInOrder(g: Graph, critical: seq<Id>, i: nat, j: nat)
    requires g.Valid() && i < j < |OrderFrontier(g, critical)|
    ensures var x, y := OrderFrontier(g, critical)[i], OrderFrontier(g, critical)[j];
            && x in g.byId && y in g.byId
            && var a, b := g.byId[x].entry.foundation, g.byId[y].entry.foundation;
            && (b ==> a)
            && (a == b ==> Named(g.tasks, x) >= Named(g.tasks, y))
            && (a == b && Named(g.tasks, x) == Named(g.tasks, y) && y in critical ==> x in critical)
            && (a == b && Named(g.tasks, x) == Named(g.tasks, y) && (x in critical <==> y in critical) ==> Before(x, y))
  {
    FrontierInOrder(g, critical);
    var x, y := OrderFrontier(g, critical)[i], OrderFrontier(g, critical)[j];
    assert Goes(g, critical, x, y);
    FanOutCounts(g.tasks, x);
    FanOutCounts(g.tasks, y);
  }

  lemma AscendingIsDistinct(s: seq<Id>)
    requires Ascending(s)
    ensures Distinct(s)
  {
    BeforeIsTotalOrder();
  }

  // ---- the same in every run ---------------------------------------------------------------------

  lemma SameFanOut(g: Graph, h: Graph, x: Id)
    requires g.Valid() && h.Valid() && g.byId == h.byId
    ensures FanOut(g, x) == FanOut(h, x)
  {
    var a, b := multiset(Dependents(g.tasks, x)), multiset(Dependents(h.tasks, x));
    forall c
      ensures a[c] == b[c]
    {
      if c in g.byId {
        DependentsCount(g, x, c);
        DependentsCount(h, x, c);
      } else {
        DependentsKnown(g, x);
        DependentsKnown(h, x);
      }
    }
    assert a == b;
    assert FanOut(g, x) == |a| && FanOut(h, x) == |b|;
  }

  lemma SameChains(g: Graph, h: Graph, p: seq<Id>)
    requires g.byId == h.byId
    ensures Chain(g, p) <==> Chain(h, p)
  {
    forall a, b
      ensures g.Waits(a, b) <==> h.Waits(a, b)
    {
    }
  }

  lemma OneCriticalPath(g: Graph, h: Graph, p: seq<Id>, q: seq<Id>)
    requires g.Valid() && h.Valid() && g.byId == h.byId
    requires IsCriticalPath(g, p) && IsCriticalPath(h, q)
    ensures p == q
  {
    SameEmptiness(g, h);
    if g.tasks != [] {
      SameChains(g, h, p);
      SameChains(g, h, q);
      LeastBothWays(p, q);
    }
  }

  lemma LeastBothWays(p: seq<Id>, q: seq<Id>)
    requires |p| == |q| && LeastFromEnd(p, q) && LeastFromEnd(q, p)
    ensures p == q
  {
    var k :| 0 <= k <= |p| && p[k..] == q[k..] && (k == 0 || Before(p[k - 1], q[k - 1]));
    var m :| 0 <= m <= |p| && q[m..] == p[m..] && (m == 0 || Before(q[m - 1], p[m - 1]));
    NotLessBothWays(p, q, k, m);
    assert p[0..] == p && q[0..] == q;
  }

  lemma NotLessBothWays(p: seq<Id>, q: seq<Id>, k: nat, m: nat)
    requires |p| == |q| && k <= |p| && m <= |p| && p[k..] == q[k..] && p[m..] == q[m..]
    requires k == 0 || Before(p[k - 1], q[k - 1])
    requires m == 0 || Before(q[m - 1], p[m - 1])
    ensures k == 0 || m == 0
  {
    SameFrom(p, q, k);
    SameFrom(p, q, m);
    if k > 0 && m > 0 {
      BeforeConnects(p[k - 1], q[k - 1]);
      BeforeConnects(p[m - 1], q[m - 1]);
    }
  }

  lemma SameFrom(p: seq<Id>, q: seq<Id>, k: nat)
    requires |p| == |q| && k <= |p| && p[k..] == q[k..]
    ensures forall j :: k <= j < |p| ==> p[j] == q[j]
  {
    assert forall j :: k <= j < |p| ==> p[j] == p[k..][j - k] && q[j] == q[k..][j - k];
  }

  lemma SameEmptiness(g: Graph, h: Graph)
    requires g.Valid() && h.Valid() && g.byId == h.byId
    ensures g.tasks == [] <==> h.tasks == []
  {
    if g.tasks != [] {
      assert g.tasks[0].id in h.byId;
    }
    if h.tasks != [] {
      assert h.tasks[0].id in g.byId;
    }
  }

  lemma SameRanks(g: Graph, h: Graph, critical: seq<Id>, s: seq<Id>)
    requires g.Valid() && h.Valid() && g.byId == h.byId && Known(g, s) && InOrder(g, critical, s)
    ensures Known(h, s) && InOrder(h, critical, s)
  {
    forall i, j | 0 <= i < j < |s|
      ensures Goes(h, critical, s[i], s[j])
    {
      assert Goes(g, critical, s[i], s[j]);
      SameFanOut(g, h, s[i]);
      SameFanOut(g, h, s[j]);
    }
  }

  /** Two runs over the same tasks schedule identically, however the tasks are listed. */
  lemma RunsAgree(g: Graph, h: Graph, p: seq<Id>, q: seq<Id>)
    requires g.Valid() && h.Valid() && g.byId == h.byId
    requires IsCriticalPath(g, p) && IsCriticalPath(h, q)
    ensures OrderFrontier(g, p) == OrderFrontier(h, q)
  {
    OneCriticalPath(g, h, p, q);
    FrontierInOrder(g, p);
    FrontierInOrder(h, p);
    SameRanks(g, h, p, OrderFrontier(g, p));
    SameStarts(g, h);
    OnlyOneOrder(h, p, OrderFrontier(g, p), OrderFrontier(h, p));
  }

  lemma SameStarts(g: Graph, h: Graph)
    requires g.byId == h.byId
    ensures forall x :: x in g.byId ==> (CanStart(g, g.byId[x]) <==> CanStart(h, h.byId[x]))
  {
  }
}
