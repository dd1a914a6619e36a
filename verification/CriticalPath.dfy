/** The longest chain of the graph, ties by ascending id (src/rein/dag.py). */
module CriticalPath {
  import opened Ids
  import opened TaskGraph
  import opened TopoOrder
  import opened Kahn
  import opened Layers

  datatype Previous = First | After(id: Id)

  /** Read from its end, p has the smaller id at the first place where it differs from q. */
  ghost predicate LeastFromEnd(p: seq<Id>, q: seq<Id>)
    requires |p| == |q|
  {
    exists k :: 0 <= k <= |p| && p[k..] == q[k..] && (k == 0 || Before(p[k - 1], q[k - 1]))
  }

  ghost predicate IsCriticalPath(g: Graph, path: seq<Id>) {
    && (g.tasks == [] ==> path == [])
    && (g.tasks != [] ==>
          && Chain(g, path)
          && (forall q :: Chain(g, q) ==> |q| <= |path|)
          && (forall q :: Chain(g, q) && |q| == |path| ==> LeastFromEnd(path, q)))
  }

  // ---- lengths and predecessors ------------------------------------------------------------

  ghost predicate LeastAtLength(deps: seq<Id>, length: map<Id, int>, n: int, d: Id)
    requires forall e :: e in deps ==> e in length
  {
    && d in deps && length[d] == n
    && forall e :: e in deps && length[e] == n ==> !Before(e, d)
  }

  ghost predicate LengthAt(g: Graph, length: map<Id, int>, pred: map<Id, Previous>, x: Id)
    requires x in g.byId && x in length && x in pred
  {
    && length[x] >= 1
    && (forall d :: d in g.byId[x].blockedBy ==> d in length && length[d] < length[x])
    && match pred[x]
       case First => length[x] == 1
       case After(d) => length[x] > 1 && LeastAtLength(g.byId[x].blockedBy, length, length[x] - 1, d)
  }

  ghost predicate Lengths(g: Graph, length: map<Id, int>, pred: map<Id, Previous>) {
    && length.Keys == pred.Keys <= g.Ids()
    && forall x {:trigger LengthAt(g, length, pred, x)} :: x in length ==> LengthAt(g, length, pred, x)
  }

  function Depth(length: map<Id, int>): map<Id, int> {
    map x | x in length :: length[x] - 1
  }

  lemma LengthsAreDepths(g: Graph, length: map<Id, int>, pred: map<Id, Previous>)
    requires Lengths(g, length, pred)
    ensures Depths(g, Depth(length))
  {
    var depth := Depth(length);
    forall x {:trigger DepthAt(g, depth, x)} | x in depth
      ensures DepthAt(g, depth, x)
    {
      assert LengthAt(g, length, pred, x);
      if pred[x].After? {
        assert depth[pred[x].id] == depth[x] - 1;
        assert StepsDown(g, depth, x);
      }
    }
  }

  /** What the inner loop knows after some of the blockers, met in ascending order. */
  ghost predicate BestOf(deps: seq<Id>, length: map<Id, int>, best: int, previous: Previous)
    requires forall d :: d in deps ==> d in length
  {
    && (forall d :: d in deps ==> length[d] <= best)
    && match previous
       case First => deps == [] && best == 0
       case After(d) => best >= 1 && LeastAtLength(deps, length, best, d)
  }

  lemma BestOfNext(deps: seq<Id>, length: map<Id, int>, best: int, previous: Previous, dep: Id)
    requires forall d :: d in deps + [dep] ==> d in length && length[d] >= 1
    requires forall d :: d in deps ==> !Before(dep, d)
    requires BestOf(deps, length, best, previous)
    ensures length[dep] > best ==> BestOf(deps + [dep], length, length[dep], After(dep))
    ensures length[dep] <= best ==> BestOf(deps + [dep], length, best, previous)
  {
    assert dep in deps + [dep];
    assert forall d :: d in deps + [dep] <==> d in deps || d == dep;
    BeforeIsTotalOrder();
  }

  /** The inner loop: the least id among the blockers with the longest chains. */
  method LongestBlocker(deps: seq<Id>, length: map<Id, int>) returns (best: int, previous: Previous)
    requires forall d :: d in deps ==> d in length && length[d] >= 1
    ensures BestOf(deps, length, best, previous)
  {
    var sorted := Sort(deps);
    SortKeepsMembers(deps);
    SortHolds(deps);
    best, previous := 0, First;
    for j := 0 to |sorted|
      invariant forall d :: d in sorted[..j] ==> d in length
      invariant BestOf(sorted[..j], length, best, previous)
    {
      var dep := sorted[j];
      PrefixNotAfter(sorted, j);
      BestOfNext(sorted[..j], length, best, previous, dep);
      if length[dep] > best {
        best, previous := length[dep], After(dep);
      }
    }
    assert sorted[..|sorted|] == sorted;
    BestOfMembers(sorted, deps, length, best, previous);
  }

  lemma PrefixNotAfter(sorted: seq<Id>, j: nat)
    requires Sorted(sorted) && j < |sorted|
    ensures sorted[..j + 1] == sorted[..j] + [sorted[j]]
    ensures forall d :: d in sorted[..j + 1] ==> d in sorted
    ensures forall d :: d in sorted[..j] ==> !Before(sorted[j], d)
  {
  }

  lemma BestOfMembers(a: seq<Id>, b: seq<Id>, length: map<Id, int>, best: int, previous: Previous)
    requires |a| == |b| && (forall d :: d in a <==> d in b) && (forall d :: d in a ==> d in length)
    requires BestOf(a, length, best, previous)
    ensures BestOf(b, length, best, previous)
  {
  }

  lemma LengthsExtend(g: Graph, length: map<Id, int>, pred: map<Id, Previous>, x: Id, best: int, previous: Previous)
    requires Lengths(g, length, pred) && x in g.byId && x !in length
    requires forall d :: d in g.byId[x].blockedBy ==> d in length
    requires BestOf(g.byId[x].blockedBy, length, best, previous)
    ensures Lengths(g, length[x := best + 1], pred[x := previous])
    ensures best >= 0
  {
    var length', pred' := length[x := best + 1], pred[x := previous];
    forall y {:trigger LengthAt(g, length', pred', y)} | y in length'
      ensures LengthAt(g, length', pred', y)
    {
      if y != x {
        assert LengthAt(g, length, pred, y);
      }
    }
  }

  lemma BlockersHaveLengths(g: Graph, order: seq<Id>, i: nat, length: map<Id, int>, pred: map<Id, Previous>)
    requires g.Valid() && Acyclic(g) && order == Order(g) && i < |order|
    requires length.Keys == Elems(order[..i]) && Lengths(g, length, pred)
    ensures order[i] in g.byId && order[i] !in length
    ensures forall d :: d in g.byId[order[i]].blockedBy ==> d in length && length[d] >= 1
    ensures Elems(order[..i + 1]) == Elems(order[..i]) + {order[i]}
  {
    FullExactlyWhenAcyclic(g);
    NextIsReady(g, order, i);
    PositiveLengths(g, length, pred);
  }

  lemma OrderElems(g: Graph)
    requires g.Valid() && Acyclic(g)
    ensures Elems(Order(g)) == g.Ids()
  {
    FullExactlyWhenAcyclic(g);
  }

  method LengthMaps(g: Graph) returns (order: seq<Id>, length: map<Id, int>, pred: map<Id, Previous>)
    requires g.Valid() && Acyclic(g)
    ensures order == Order(g)
    ensures length.Keys == g.Ids() && Lengths(g, length, pred)
  {
    order := TopologicalOrder(g);
    OrderElems(g);
    length, pred := map[], map[];
    for i := 0 to |order|
      invariant length.Keys == Elems(order[..i])
      invariant Lengths(g, length, pred)
    {
      var tid := order[i];
      BlockersHaveLengths(g, order, i, length, pred);
      var best, previous := LongestBlocker(g.byId[tid].blockedBy, length);
      LengthsExtend(g, length, pred, tid, best, previous);
      length := length[tid := best + 1];
      pred := pred[tid := previous];
    }
    assert order[..|order|] == order;
  }

  lemma PositiveLengths(g: Graph, length: map<Id, int>, pred: map<Id, Previous>)
    requires Lengths(g, length, pred)
    ensures forall x :: x in length ==> length[x] >= 1
  {
    forall x | x in length
      ensures length[x] >= 1
    {
      assert LengthAt(g, length, pred, x);
    }
  }

  // ---- the path ----------------------------------------------------------------------------

  /** `min(length, key=lambda t: (-length[t], t))`. */
  ghost predicate IsEnd(length: map<Id, int>, x: Id) {
    && x in length
    && (forall y :: y in length ==> length[y] <= length[x])
    && (forall y :: y in length && length[y] == length[x] ==> !Before(y, x))
  }

  method End(order: seq<Id>, length: map<Id, int>) returns (end: Id)
    requires order != [] && forall x :: x in order <==> x in length
    ensures IsEnd(length, end)
  {
    end := order[0];
    BeforeIsTotalOrder();
    for i := 1 to |order|
      invariant end in order
      invariant forall y :: y in order[..i] ==> length[y] <= length[end]
      invariant forall y :: y in order[..i] && length[y] == length[end] ==> !Before(y, end)
    {
      var x := order[i];
      assert order[..i + 1] == order[..i] + [x];
      if length[x] > length[end] || (length[x] == length[end] && Before(x, end)) {
        end := x;
      }
    }
    assert order[..|order|] == order;
  }

  /** Walking the predecessors back from `end`, the length dropping by one each time. */
  ghost predicate Descent(g: Graph, length: map<Id, int>, pred: map<Id, Previous>, back: seq<Id>, end: Id)
    requires end in length
  {
    && back != [] && back[0] == end
    && (forall i :: 0 <= i < |back| ==> back[i] in length && back[i] in pred && length[back[i]] == length[end] - i)
    && (forall i :: 0 < i < |back| ==> pred[back[i - 1]] == After(back[i]))
  }

  function Reversed(s: seq<Id>): (r: seq<Id>)
    ensures |r| == |s| && forall i :: 0 <= i < |s| ==> r[i] == s[|s| - 1 - i]
  {
    if s == [] then [] else Reversed(s[1..]) + [s[0]]
  }

  /** The walk: from the end, predecessor by predecessor, to a task that has none. */
  method WalkBack(g: Graph, length: map<Id, int>, pred: map<Id, Previous>, end: Id) returns (back: seq<Id>)
    requires Lengths(g, length, pred) && end in length
    ensures Descent(g, length, pred, back, end) && length[back[|back| - 1]] == 1
  {
    PositiveLengths(g, length, pred);
    assert LengthAt(g, length, pred, end);
    back := [end];
    var node := pred[end];
    while node.After?
      invariant Descent(g, length, pred, back, end)
      invariant node == pred[back[|back| - 1]]
      decreases length[back[|back| - 1]]
    {
      assert LengthAt(g, length, pred, back[|back| - 1]);
      back := back + [node.id];
      node := pred[node.id];
    }
    assert LengthAt(g, length, pred, back[|back| - 1]);
  }

  method CriticalPath(g: Graph) returns (path: seq<Id>)
    requires g.Valid() && Acyclic(g)
    ensures IsCriticalPath(g, path)
  {
    var order, length, pred := LengthMaps(g);
    OrderHoldsAll(g);
    if |order| == 0 {
      return [];
    }
    var end := End(order, length);
    var back := WalkBack(g, length, pred, end);
    path := Reversed(back);
    DescentIsCritical(g, length, pred, back, end, path);
  }

  lemma OrderHoldsAll(g: Graph)
    requires g.Valid() && Acyclic(g)
    ensures forall x :: x in Order(g) <==> x in g.Ids()
    ensures g.tasks == [] <==> Order(g) == []
  {
    FullExactlyWhenAcyclic(g);
    assert forall x :: x in Order(g) <==> x in Elems(Order(g));
    if g.tasks == [] {
      assert g.Ids() == {};
    } else {
      assert g.tasks[0].id in g.Ids();
    }
  }

  lemma DescentIsChain(g: Graph, length: map<Id, int>, pred: map<Id, Previous>, back: seq<Id>, end: Id, path: seq<Id>)
    requires Lengths(g, length, pred) && length.Keys == g.Ids() && end in length
    requires Descent(g, length, pred, back, end) && path == Reversed(back)
    ensures Chain(g, path)
  {
    var n := |path|;
    forall i | 0 < i < n
      ensures g.Waits(path[i - 1], path[i])
    {
      assert path[i] == back[n - 1 - i] && path[i - 1] == back[n - i];
      assert LengthAt(g, length, pred, back[n - 1 - i]);
      assert pred[back[(n - i) - 1]] == After(back[n - i]);
    }
  }

  /** Any chain as long can only follow the descent, or leave it for a larger id. */
  lemma DescentStep(g: Graph, length: map<Id, int>, pred: map<Id, Previous>, back: seq<Id>, end: Id, q: seq<Id>, i: nat)
    requires Lengths(g, length, pred) && length.Keys == g.Ids()
    requires IsEnd(length, end) && Descent(g, length, pred, back, end)
    requires Chain(g, q) && |q| == |back| == length[end]
    requires i < |q| && (i == 0 || back[i - 1] == q[|q| - i])
    ensures !Before(q[|q| - 1 - i], back[i])
  {
    var n := |q| - 1 - i;
    LengthsAreDepths(g, length, pred);
    ChainSlice(g, q, 0, n + 1);
    DepthBoundsChains(g, Depth(length), q[..n + 1]);
    assert q[..n + 1][n] == q[n];
    assert length[q[n]] >= n + 1;
    if i > 0 {
      assert LengthAt(g, length, pred, back[i - 1]);
      assert g.Waits(q[n], q[n + 1]);
      assert length[q[n]] == n + 1;
    }
  }

  lemma {:induction false} DescentLeast(g: Graph, length: map<Id, int>, pred: map<Id, Previous>,
                                        back: seq<Id>, end: Id, path: seq<Id>, q: seq<Id>, k: nat)
    requires Lengths(g, length, pred) && length.Keys == g.Ids()
    requires IsEnd(length, end) && Descent(g, length, pred, back, end)
    requires Chain(g, q) && |q| == |back| == length[end] && path == Reversed(back)
    requires k <= |q| && path[k..] == q[k..]
    ensures LeastFromEnd(path, q)
    decreases k
  {
    if k > 0 {
      var i := |q| - k;
      assert path[k - 1] == back[i];
      assert i > 0 ==> path[k..][0] == q[k..][0];
      DescentStep(g, length, pred, back, end, q, i);
      BeforeIsTotalOrder();
      if q[k - 1] == back[i] {
        assert path[k - 1..] == [path[k - 1]] + path[k..];
        assert q[k - 1..] == [q[k - 1]] + q[k..];
        DescentLeast(g, length, pred, back, end, path, q, k - 1);
      } else {
        assert Before(path[k - 1], q[k - 1]);
      }
    }
  }

  lemma DescentIsCritical(g: Graph, length: map<Id, int>, pred: map<Id, Previous>, back: seq<Id>, end: Id, path: seq<Id>)
    requires g.tasks != [] && Lengths(g, length, pred) && length.Keys == g.Ids()
    requires IsEnd(length, end) && Descent(g, length, pred, back, end) && path == Reversed(back)
    requires length[back[|back| - 1]] == 1
    ensures IsCriticalPath(g, path)
  {
    DescentIsChain(g, length, pred, back, end, path);
    assert |back| == length[end];
    LengthsAreDepths(g, length, pred);
    forall q | Chain(g, q)
      ensures |q| <= |path|
    {
      DepthBoundsChains(g, Depth(length), q);
    }
    forall q | Chain(g, q) && |q| == |path|
      ensures LeastFromEnd(path, q)
    {
      DescentLeast(g, length, pred, back, end, path, q, |q|);
    }
  }

  // ---- and the layers ----------------------------------------------------------------------

  lemma CriticalPrefixIsLongest(g: Graph, path: seq<Id>, i: nat)
    requires g.tasks != [] && IsCriticalPath(g, path) && i < |path|
    ensures LongestChainTo(g, path[i], i + 1)
  {
    ChainSlice(g, path, 0, i + 1);
    assert ChainTo(g, path[..i + 1], path[i]);
    forall p | ChainTo(g, p, path[i])
      ensures |p| <= i + 1
    {
      if i + 1 < |path| {
        ChainSlice(g, path, i + 1, |path|);
        assert g.Waits(path[i], path[i + 1]);
        ChainJoin(g, p, path[i + 1..]);
      }
    }
  }

  lemma InItsLayer(g: Graph, path: seq<Id>, layers: seq<seq<Id>>, i: nat)
    requires g.Valid() && g.tasks != [] && IsCriticalPath(g, path) && IsLayering(g, layers) && i < |path|
    ensures i < |layers| && path[i] in layers[i]
  {
    CriticalPrefixIsLongest(g, path, i);
    assert path[i] in g.byId;
    var j := LayerOf(g, layers, path[i]);
    InLayer(g, layers, j, path[i]);
    LongestChainUnique(g, path[i], i + 1, j + 1);
  }

  lemma NoMoreLayers(g: Graph, path: seq<Id>, layers: seq<seq<Id>>)
    requires g.tasks != [] && IsCriticalPath(g, path) && IsLayering(g, layers)
    ensures |layers| <= |path|
  {
    if layers != [] {
      var n := |layers| - 1;
      var x := layers[n][0];
      InLayer(g, layers, n, x);
      var p :| ChainTo(g, p, x) && |p| == n + 1;
    }
  }

  lemma NoTasksNoLayers(g: Graph, layers: seq<seq<Id>>)
    requires g.Valid() && g.tasks == [] && IsLayering(g, layers)
    ensures layers == []
  {
    assert g.Ids() == {};
    if layers != [] {
      InLayer(g, layers, 0, layers[0][0]);
    }
  }

  /** The critical path has one task in each layer, in the order of the layers. */
  lemma CriticalPathCrossesEveryLayer(g: Graph, path: seq<Id>, layers: seq<seq<Id>>)
    requires g.Valid() && IsCriticalPath(g, path) && IsLayering(g, layers)
    ensures |path| == |layers|
    ensures forall i :: 0 <= i < |path| ==> path[i] in layers[i]
  {
    if g.tasks == [] {
      NoTasksNoLayers(g, layers);
    } else {
      forall i | 0 <= i < |path|
        ensures i < |layers| && path[i] in layers[i]
      {
        InItsLayer(g, path, layers, i);
      }
      InItsLayer(g, path, layers, |path| - 1);
      NoMoreLayers(g, path, layers);
    }
  }
}
