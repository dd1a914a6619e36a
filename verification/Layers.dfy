/** Structural execution layers: the depth of a task is its longest dependency chain (src/rein/dag.py). */
module Layers {
  import opened Ids
  import opened TaskGraph
  import opened TopoOrder
  import opened Kahn

  ghost predicate ChainTo(g: Graph, p: seq<Id>, x: Id) {
    Chain(g, p) && p[|p| - 1] == x
  }

  /** n tasks, and no more, can follow one another up to x. */
  ghost predicate LongestChainTo(g: Graph, x: Id, n: nat) {
    && (exists p :: ChainTo(g, p, x) && |p| == n)
    && (forall p :: ChainTo(g, p, x) ==> |p| <= n)
  }

  ghost predicate BelongsAt(g: Graph, i: nat, x: Id) {
    x in g.byId && LongestChainTo(g, x, i + 1)
  }

  ghost predicate InSome(layers: seq<seq<Id>>, x: Id) {
    exists i :: 0 <= i < |layers| && x in layers[i]
  }

  /** What `layers` promises: layer i holds, in ascending order, exactly the tasks whose longest chain
      has i + 1 tasks; every task is in one; and none is empty. */
  ghost predicate IsLayering(g: Graph, layers: seq<seq<Id>>) {
    && (forall i :: 0 <= i < |layers| ==> Ascending(layers[i]) && layers[i] != [])
    && (forall i, x {:trigger BelongsAt(g, i, x)} :: 0 <= i < |layers| ==> (x in layers[i] <==> BelongsAt(g, i, x)))
    && (forall x {:trigger InSome(layers, x)} :: x in g.byId ==> InSome(layers, x))
  }

  lemma LongestChainUnique(g: Graph, x: Id, m: nat, n: nat)
    requires LongestChainTo(g, x, m) && LongestChainTo(g, x, n)
    ensures m == n
  {
    var p :| ChainTo(g, p, x) && |p| == m;
    var q :| ChainTo(g, q, x) && |q| == n;
  }

  lemma InLayer(g: Graph, layers: seq<seq<Id>>, i: nat, x: Id)
    requires IsLayering(g, layers) && i < |layers|
    ensures x in layers[i] <==> x in g.byId && LongestChainTo(g, x, i + 1)
  {
    assert x in layers[i] <==> BelongsAt(g, i, x);
  }

  lemma OneLayer(g: Graph, layers: seq<seq<Id>>, i: nat, j: nat, x: Id)
    requires IsLayering(g, layers) && i < |layers| && j < |layers| && x in layers[i] && x in layers[j]
    ensures i == j
  {
    InLayer(g, layers, i, x);
    InLayer(g, layers, j, x);
    LongestChainUnique(g, x, i + 1, j + 1);
  }

  lemma LayerOf(g: Graph, layers: seq<seq<Id>>, x: Id) returns (i: nat)
    requires IsLayering(g, layers) && x in g.byId
    ensures i < |layers| && x in layers[i]
  {
    assert InSome(layers, x);
    i :| 0 <= i < |layers| && x in layers[i];
  }

  // ---- depths ------------------------------------------------------------------------------

  /** `max(depth[d] for d in deps)`, -1 when there are none. */
  function Deepest(deps: seq<Id>, depth: map<Id, int>): int
    requires forall d :: d in deps ==> d in depth
  {
    if deps == [] then -1
    else
      var rest, last := Deepest(deps[..|deps| - 1], depth), depth[deps[|deps| - 1]];
      if last > rest then last else rest
  }

  lemma {:induction false} DeepestBounds(deps: seq<Id>, depth: map<Id, int>, d: Id)
    requires (forall x :: x in deps ==> x in depth) && d in deps
    ensures depth[d] <= Deepest(deps, depth)
  {
    var rest, last := deps[..|deps| - 1], deps[|deps| - 1];
    assert deps == rest + [last];
    if d in rest {
      DeepestBounds(rest, depth, d);
    }
  }

  lemma {:induction false} DeepestReached(deps: seq<Id>, depth: map<Id, int>) returns (d: Id)
    requires deps != [] && forall x :: x in deps ==> x in depth && depth[x] >= 0
    ensures d in deps && depth[d] == Deepest(deps, depth)
  {
    var rest, last := deps[..|deps| - 1], deps[|deps| - 1];
    assert deps == rest + [last];
    d := last;
    if rest != [] && Deepest(rest, depth) >= depth[last] {
      d := DeepestReached(rest, depth);
    }
  }

  lemma DeepestIsMaximum(deps: seq<Id>, depth: map<Id, int>)
    requires forall d :: d in deps ==> d in depth && depth[d] >= 0
    ensures forall d :: d in deps ==> depth[d] <= Deepest(deps, depth)
    ensures deps != [] ==> exists d :: d in deps && depth[d] == Deepest(deps, depth)
    ensures Deepest(deps, depth) >= 0 <==> deps != []
  {
    forall d | d in deps
      ensures depth[d] <= Deepest(deps, depth)
    {
      DeepestBounds(deps, depth, d);
    }
    if deps != [] {
      var d := DeepestReached(deps, depth);
    }
  }

  ghost predicate StepsDown(g: Graph, depth: map<Id, int>, x: Id)
    requires x in g.byId && x in depth
  {
    exists d :: d in g.byId[x].blockedBy && d in depth && depth[d] == depth[x] - 1
  }

  ghost predicate DepthAt(g: Graph, depth: map<Id, int>, x: Id)
    requires x in g.byId && x in depth
  {
    && depth[x] >= 0
    && (forall d :: d in g.byId[x].blockedBy ==> d in depth && depth[d] < depth[x])
    && (depth[x] > 0 ==> StepsDown(g, depth, x))
  }

  /** The equation the depth map satisfies at every task it has reached. */
  ghost predicate Depths(g: Graph, depth: map<Id, int>) {
    && depth.Keys <= g.Ids()
    && forall x {:trigger DepthAt(g, depth, x)} :: x in depth ==> DepthAt(g, depth, x)
  }

  lemma {:induction false} DepthBoundsChains(g: Graph, depth: map<Id, int>, p: seq<Id>)
    requires Depths(g, depth) && depth.Keys == g.Ids() && Chain(g, p)
    ensures |p| <= depth[p[|p| - 1]] + 1
  {
    var n := |p| - 1;
    assert DepthAt(g, depth, p[n]);
    if n > 0 {
      ChainSlice(g, p, 0, n);
      assert g.Waits(p[n - 1], p[n]);
      DepthBoundsChains(g, depth, p[..n]);
    }
  }

  lemma {:induction false} DepthHasChain(g: Graph, depth: map<Id, int>, x: Id) returns (p: seq<Id>)
    requires Depths(g, depth) && x in depth
    ensures ChainTo(g, p, x) && |p| == depth[x] + 1
    decreases if DepthAt(g, depth, x) then depth[x] else 0
  {
    assert DepthAt(g, depth, x);
    if depth[x] == 0 {
      p := [x];
    } else {
      assert StepsDown(g, depth, x);
      var d :| d in g.byId[x].blockedBy && d in depth && depth[d] == depth[x] - 1;
      assert DepthAt(g, depth, d);
      var q := DepthHasChain(g, depth, d);
      ChainJoin(g, q, [x]);
      p := q + [x];
    }
  }

  lemma DepthIsLongestChain(g: Graph, depth: map<Id, int>, x: Id)
    requires Depths(g, depth) && depth.Keys == g.Ids() && x in depth
    ensures depth[x] >= 0 && LongestChainTo(g, x, depth[x] + 1)
    ensures forall n: nat :: LongestChainTo(g, x, n) ==> n == depth[x] + 1
  {
    assert DepthAt(g, depth, x);
    var p := DepthHasChain(g, depth, x);
    forall q | ChainTo(g, q, x)
      ensures |q| <= depth[x] + 1
    {
      DepthBoundsChains(g, depth, q);
    }
  }

  method DepthMap(g: Graph) returns (order: seq<Id>, depth: map<Id, int>)
    requires g.Valid() && Acyclic(g)
    ensures order == Order(g)
    ensures depth.Keys == g.Ids() && Depths(g, depth)
  {
    order := TopologicalOrder(g);
    FullExactlyWhenAcyclic(g);
    depth := map[];
    for i := 0 to |order|
      invariant depth.Keys == Elems(order[..i])
      invariant Depths(g, depth)
    {
      var tid := order[i];
      NextIsReady(g, order, i);
      DepthExtends(g, depth, tid);
      depth := depth[tid := 1 + Deepest(g.byId[tid].blockedBy, depth)];
    }
    assert order[..|order|] == order;
  }

  lemma DepthExtends(g: Graph, depth: map<Id, int>, x: Id)
    requires Depths(g, depth) && x in g.byId && x !in depth
    requires forall d :: d in g.byId[x].blockedBy ==> d in depth
    ensures Depths(g, depth[x := 1 + Deepest(g.byId[x].blockedBy, depth)])
  {
    var deps := g.byId[x].blockedBy;
    var after := depth[x := 1 + Deepest(deps, depth)];
    forall d | d in deps
      ensures depth[d] >= 0 && d != x
    {
      assert DepthAt(g, depth, d);
    }
    DeepestIsMaximum(deps, depth);
    forall y {:trigger DepthAt(g, after, y)} | y in after
      ensures DepthAt(g, after, y)
    {
      if y == x {
        if deps != [] {
          var d :| d in deps && depth[d] == Deepest(deps, depth);
          assert StepsDown(g, after, x);
        }
      } else {
        assert DepthAt(g, depth, y);
        if depth[y] > 0 {
          assert StepsDown(g, depth, y);
          var d :| d in g.byId[y].blockedBy && d in depth && depth[d] == depth[y] - 1;
          assert d in after && after[d] == after[y] - 1;
          assert StepsDown(g, after, y);
        }
      }
    }
  }

  // ---- layers ------------------------------------------------------------------------------

  function AtDepth(order: seq<Id>, depth: map<Id, int>, level: int): (found: seq<Id>)
    requires forall x :: x in order ==> x in depth
    ensures forall x :: x in found <==> x in order && depth[x] == level
  {
    if order == [] then []
    else
      var last := order[|order| - 1];
      assert order == order[..|order| - 1] + [last];
      AtDepth(order[..|order| - 1], depth, level) + if depth[last] == level then [last] else []
  }

  lemma {:induction false} AtDepthDistinct(order: seq<Id>, depth: map<Id, int>, level: int)
    requires forall x :: x in order ==> x in depth
    requires Distinct(order)
    ensures Distinct(AtDepth(order, depth, level))
  {
    if order != [] {
      var rest, last := order[..|order| - 1], order[|order| - 1];
      AtDepthDistinct(rest, depth, level);
      assert last !in rest;
    }
  }

  /** Nothing sits deeper than one below something else: no layer up to the deepest is empty. */
  lemma {:induction false} LevelsAreFilled(g: Graph, depth: map<Id, int>, x: Id, level: nat) returns (y: Id)
    requires Depths(g, depth) && x in depth && level <= depth[x]
    ensures y in depth && depth[y] == level
    decreases depth[x]
  {
    assert DepthAt(g, depth, x);
    if depth[x] == level {
      y := x;
    } else {
      assert StepsDown(g, depth, x);
      var d :| d in g.byId[x].blockedBy && d in depth && depth[d] == depth[x] - 1;
      y := LevelsAreFilled(g, depth, d, level);
    }
  }

  ghost predicate IsLevel(layer: seq<Id>, depth: map<Id, int>, level: int) {
    Ascending(layer) && forall x :: x in layer <==> x in depth && depth[x] == level
  }

  lemma DepthsCoverOrder(g: Graph, order: seq<Id>, depth: map<Id, int>)
    requires g.Valid() && Acyclic(g) && order == Order(g)
    requires depth.Keys == g.Ids() && Depths(g, depth)
    ensures Distinct(order) && forall x :: x in order <==> x in depth
    ensures forall x :: x in order ==> 0 <= depth[x] <= Deepest(order, depth)
    ensures order != [] ==> exists d :: d in order && depth[d] == Deepest(order, depth)
    ensures Deepest(order, depth) >= -1
  {
    FullExactlyWhenAcyclic(g);
    assert forall x :: x in order <==> x in Elems(order);
    forall x | x in order
      ensures depth[x] >= 0
    {
      assert DepthAt(g, depth, x);
    }
    DeepestIsMaximum(order, depth);
  }

  lemma LevelIsSorted(order: seq<Id>, depth: map<Id, int>, level: nat)
    requires Distinct(order) && forall x :: x in order <==> x in depth
    ensures IsLevel(Sort(AtDepth(order, depth, level)), depth, level)
  {
    AtDepthDistinct(order, depth, level);
    SortDistinct(AtDepth(order, depth, level));
    SortKeepsMembers(AtDepth(order, depth, level));
  }

  method LayerList(g: Graph) returns (layers: seq<seq<Id>>)
    requires g.Valid() && Acyclic(g)
    ensures IsLayering(g, layers)
  {
    var order, depth := DepthMap(g);
    DepthsCoverOrder(g, order, depth);
    var maxDepth := Deepest(order, depth);
    layers := [];
    for level := 0 to maxDepth + 1
      invariant |layers| == level
      invariant forall i :: 0 <= i < level ==> IsLevel(layers[i], depth, i)
    {
      LevelIsSorted(order, depth, level);
      layers := layers + [Sort(AtDepth(order, depth, level))];
    }
    LayersFromDepths(g, order, depth, layers);
  }

  lemma LayersFromDepths(g: Graph, order: seq<Id>, depth: map<Id, int>, layers: seq<seq<Id>>)
    requires Depths(g, depth) && depth.Keys == g.Ids()
    requires forall x :: x in order <==> x in depth
    requires forall x :: x in order ==> 0 <= depth[x] <= Deepest(order, depth)
    requires |layers| == Deepest(order, depth) + 1
    requires order != [] ==> exists d :: d in order && depth[d] == Deepest(order, depth)
    requires forall i :: 0 <= i < |layers| ==> IsLevel(layers[i], depth, i)
    ensures IsLayering(g, layers)
  {
    forall i | 0 <= i < |layers|
      ensures layers[i] != []
    {
      assert order != [];
      var deep :| deep in order && depth[deep] == Deepest(order, depth);
      var y := LevelsAreFilled(g, depth, deep, i);
      assert y in layers[i];
    }
    forall i: nat, x {:trigger BelongsAt(g, i, x)} | i < |layers|
      ensures x in layers[i] <==> BelongsAt(g, i, x)
    {
      if x in g.byId {
        DepthIsLongestChain(g, depth, x);
      }
    }
    forall x {:trigger InSome(layers, x)} | x in g.byId
      ensures InSome(layers, x)
    {
      assert x in order;
      assert x in layers[depth[x]];
    }
  }
}
