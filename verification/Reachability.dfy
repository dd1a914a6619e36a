/** The worklists over the graph: what a roll back ripples to, what a task stands on
    (src/rein/dag.py), and what a plan's task waits for (src/rein/approve.py). */
module Reachability {
  import opened Ids
  import opened TaskGraph
  import opened TopoOrder

  ghost predicate Joins(g: Graph, p: seq<Id>, a: Id, b: Id) {
    Chain(g, p) && p[0] == a && p[|p| - 1] == b
  }

  /** b is a, or waits for it directly or through others. */
  ghost predicate Leads(g: Graph, a: Id, b: Id) {
    exists p :: Joins(g, p, a, b)
  }

  /** b waits for a, directly or through others. */
  ghost predicate LeadsOn(g: Graph, a: Id, b: Id) {
    exists p :: Joins(g, p, a, b) && |p| >= 2
  }

  lemma LeadsSelf(g: Graph, a: Id)
    requires a in g.byId
    ensures Leads(g, a, a)
  {
    assert Joins(g, [a], a, a);
  }

  lemma LeadsForward(g: Graph, a: Id, b: Id, c: Id)
    requires Leads(g, a, b) && g.Waits(b, c)
    ensures LeadsOn(g, a, c)
  {
    var p :| Joins(g, p, a, b);
    ChainJoin(g, p, [c]);
    assert Joins(g, p + [c], a, c);
  }

  lemma LeadsBackward(g: Graph, a: Id, b: Id, c: Id)
    requires a in g.byId && g.Waits(a, b) && Leads(g, b, c)
    ensures LeadsOn(g, a, c)
  {
    var p :| Joins(g, p, b, c);
    ChainJoin(g, [a], p);
    assert Joins(g, [a] + p, a, c);
  }

  lemma LeadsOnIsLeads(g: Graph, a: Id, b: Id)
    requires LeadsOn(g, a, b)
    ensures Leads(g, a, b)
  {
    var p :| Joins(g, p, a, b) && |p| >= 2;
  }

  lemma LeadsApart(g: Graph, a: Id, b: Id)
    requires Leads(g, a, b) && a != b
    ensures LeadsOn(g, a, b)
  {
    var p :| Joins(g, p, a, b);
    assert |p| >= 2;
  }

  /** A chain that starts inside a set closed forwards never leaves it after its first step. */
  lemma {:induction false} ClosedForwards(g: Graph, inside: set<Id>, p: seq<Id>)
    requires Chain(g, p) && |p| >= 2
    requires forall c :: g.Waits(p[0], c) ==> c in inside
    requires forall x, c :: x in inside && g.Waits(x, c) ==> c in inside
    ensures p[|p| - 1] in inside
  {
    var n := |p| - 1;
    assert g.Waits(p[n - 1], p[n]);
    if n > 1 {
      ChainSlice(g, p, 0, n);
      ClosedForwards(g, inside, p[..n]);
      assert p[..n][n - 1] == p[n - 1];
    }
  }

  lemma {:induction false} ClosedBackwards(g: Graph, inside: set<Id>, p: seq<Id>)
    requires Chain(g, p) && |p| >= 2
    requires forall d :: d in g.byId && g.Waits(d, p[|p| - 1]) ==> d in inside
    requires forall x, d :: x in inside && d in g.byId && g.Waits(d, x) ==> d in inside
    ensures p[0] in inside
  {
    assert g.Waits(p[0], p[1]);
    if |p| > 2 {
      ChainSlice(g, p, 1, |p|);
      ClosedBackwards(g, inside, p[1..]);
    }
  }

  // ---- the ripple of a roll back -----------------------------------------------------------

  ghost predicate AfterSeed(g: Graph, seeds: seq<Id>, x: Id) {
    exists s :: s in seeds && LeadsOn(g, s, x)
  }

  /** Everything that waits for a seed, the seeds themselves left out. */
  ghost predicate IsRipple(g: Graph, seeds: seq<Id>, result: set<Id>) {
    forall x {:trigger x in result} {:trigger AfterSeed(g, seeds, x)} :: x in result <==> x !in seeds && AfterSeed(g, seeds, x)
  }

  ghost predicate Expanded(g: Graph, found: set<Id>, x: Id) {
    forall c :: c in Dependents(g.tasks, x) ==> c in found
  }

  /** The worklist's invariant: everything found is after a seed; everything found or sought is still
      on the stack or has all its dependents found. */
  ghost predicate RippleSoFar(g: Graph, seeds: seq<Id>, stack: seq<Id>, found: set<Id>) {
    && found <= g.Ids()
    && (forall x {:trigger AfterSeed(g, seeds, x)} :: x in found ==> AfterSeed(g, seeds, x))
    && (forall x :: x in stack ==> x in g.byId && (x in seeds || x in found))
    && (forall x {:trigger Expanded(g, found, x)} :: x in g.byId && (x in seeds || x in found) && x !in stack ==> Expanded(g, found, x))
  }

  lemma ChildIsAfterSeed(g: Graph, seeds: seq<Id>, found: set<Id>, x: Id, c: Id)
    requires g.Valid() && x in g.byId && (x in seeds || AfterSeed(g, seeds, x))
    requires c in Dependents(g.tasks, x)
    ensures c in g.byId && AfterSeed(g, seeds, c)
  {
    DependentsKnown(g, x);
    if x in seeds {
      LeadsSelf(g, x);
      LeadsForward(g, x, x, c);
    } else {
      var s :| s in seeds && LeadsOn(g, s, x);
      LeadsOnIsLeads(g, s, x);
      LeadsForward(g, s, x, c);
    }
  }

  /** The inner loop: each child not met before is found and pushed. */
  method PushChildren(children: seq<Id>, rest: seq<Id>, before: set<Id>) returns (stack: seq<Id>, found: set<Id>)
    ensures found == before + Elems(children)
    ensures forall x :: x in stack <==> x in rest || x in found - before
    ensures |stack| == |rest| + |found| - |before|
  {
    stack, found := rest, before;
    for i := 0 to |children|
      invariant found == before + Elems(children[..i])
      invariant forall x :: x in stack <==> x in rest || x in found - before
      invariant |stack| == |rest| + |found| - |before|
    {
      var child := children[i];
      assert children[..i + 1] == children[..i] + [child];
      if child !in found {
        found := found + {child};
        stack := stack + [child];
      }
    }
    assert children[..|children|] == children;
  }

  /** The stack keeps only known seeds. */
  function Known(g: Graph, seeds: seq<Id>): (known: seq<Id>)
    ensures forall x :: x in known <==> x in seeds && x in g.byId
  {
    if seeds == [] then []
    else
      assert seeds == [seeds[0]] + seeds[1..];
      (if seeds[0] in g.byId then [seeds[0]] else []) + Known(g, seeds[1..])
  }

  method DependentsClosure(g: Graph, seeds: seq<Id>) returns (result: set<Id>)
    requires g.Valid()
    ensures IsRipple(g, seeds, result)
  {
    var dependents := DependentsMap(g);
    var found: set<Id> := {};
    var stack := Known(g, seeds);
    while stack != []
      invariant RippleSoFar(g, seeds, stack, found)
      decreases |g.Ids()| - |found|, |stack|
    {
      var current, rest := stack[|stack| - 1], stack[..|stack| - 1];
      assert current in stack;
      var stack', found' := PushChildren(dependents[current], rest, found);
      RippleStep(g, seeds, stack, found, stack', found');
      RippleGrows(g, found, found');
      stack, found := stack', found';
    }
    RippleDone(g, seeds, found);
    result := found - Elems(seeds);
  }

  lemma RippleGrows(g: Graph, found: set<Id>, found': set<Id>)
    requires found <= found' <= g.Ids()
    ensures |found| <= |found'| <= |g.Ids()|
  {
    SubsetSize(found, found');
    SubsetSize(found', g.Ids());
  }

  lemma RippleStep(g: Graph, seeds: seq<Id>, stack: seq<Id>, found: set<Id>, stack': seq<Id>, found': set<Id>)
    requires g.Valid() && stack != [] && RippleSoFar(g, seeds, stack, found)
    requires found' == found + Elems(Dependents(g.tasks, stack[|stack| - 1]))
    requires forall x :: x in stack' <==> x in stack[..|stack| - 1] || x in found' - found
    ensures RippleSoFar(g, seeds, stack', found')
  {
    var current, rest := stack[|stack| - 1], stack[..|stack| - 1];
    assert stack == rest + [current];
    assert current in stack;
    DependentsKnown(g, current);
    forall x {:trigger AfterSeed(g, seeds, x)} | x in found'
      ensures AfterSeed(g, seeds, x)
    {
      if x !in found {
        assert current in found ==> AfterSeed(g, seeds, current);
        ChildIsAfterSeed(g, seeds, found, current, x);
      } else {
        assert AfterSeed(g, seeds, x);
      }
    }
    forall x {:trigger Expanded(g, found', x)} | x in g.byId && (x in seeds || x in found') && x !in stack'
      ensures Expanded(g, found', x)
    {
      if x != current {
        assert x !in stack;
        assert Expanded(g, found, x);
      }
    }
  }

  lemma RippleDone(g: Graph, seeds: seq<Id>, found: set<Id>)
    requires g.Valid() && RippleSoFar(g, seeds, [], found)
    ensures IsRipple(g, seeds, found - Elems(seeds))
  {
    forall x, c | x in g.byId && (x in seeds || x in found) && g.Waits(x, c)
      ensures c in found
    {
      DependentsCount(g, x, c);
      assert Expanded(g, found, x);
    }
    forall x {:trigger AfterSeed(g, seeds, x)}
      ensures x in found <==> AfterSeed(g, seeds, x)
    {
      if AfterSeed(g, seeds, x) {
        var s :| s in seeds && LeadsOn(g, s, x);
        var p :| Joins(g, p, s, x) && |p| >= 2;
        ClosedForwards(g, found, p);
      }
    }
  }

  // ---- what a task stands on ---------------------------------------------------------------

  ghost predicate BeforeSeed(g: Graph, seeds: seq<Id>, x: Id) {
    exists s :: s in seeds && Leads(g, x, s)
  }

  /** Everything the seeds wait for, with the seeds. */
  ghost predicate IsFoundation(g: Graph, seeds: seq<Id>, result: set<Id>) {
    forall x {:trigger x in result} {:trigger BeforeSeed(g, seeds, x)} :: x in result <==> BeforeSeed(g, seeds, x)
  }

  ghost predicate Grounded(g: Graph, stack: seq<Id>, found: set<Id>, x: Id)
    requires x in g.byId
  {
    forall d :: d in g.Blockers(x) && d in g.byId ==> d in found || d in stack
  }

  ghost predicate FoundationSoFar(g: Graph, seeds: seq<Id>, stack: seq<Id>, found: set<Id>) {
    && found <= g.Ids()
    && (forall x {:trigger BeforeSeed(g, seeds, x)} :: x in found || x in stack ==> BeforeSeed(g, seeds, x))
    && (forall x :: x in stack ==> x in g.byId)
    && (forall x :: x in seeds && x in g.byId ==> x in found || x in stack)
    && (forall x {:trigger Grounded(g, stack, found, x)} :: x in found ==> Grounded(g, stack, found, x))
  }

  method DependenciesClosure(g: Graph, seeds: seq<Id>) returns (result: set<Id>)
    requires g.Valid()
    ensures IsFoundation(g, seeds, result)
  {
    result := {};
    var stack := Known(g, seeds);
    FoundationStart(g, seeds, stack);
    while stack != []
      invariant FoundationSoFar(g, seeds, stack, result)
      decreases g.Ids() - result, |stack|
    {
      var current, rest := stack[|stack| - 1], stack[..|stack| - 1];
      assert stack == rest + [current];
      assert current in stack;
      FoundationStep(g, seeds, stack, result);
      if current in result {
        stack := rest;
      } else {
        result := result + {current};
        stack := rest + g.Blockers(current);
      }
    }
    FoundationDone(g, seeds, result);
  }

  lemma FoundationStart(g: Graph, seeds: seq<Id>, stack: seq<Id>)
    requires forall x :: x in stack <==> x in seeds && x in g.byId
    ensures FoundationSoFar(g, seeds, stack, {})
  {
    forall x {:trigger BeforeSeed(g, seeds, x)} | x in stack
      ensures BeforeSeed(g, seeds, x)
    {
      LeadsSelf(g, x);
    }
  }

  lemma FoundationStep(g: Graph, seeds: seq<Id>, stack: seq<Id>, found: set<Id>)
    requires g.Valid() && stack != [] && FoundationSoFar(g, seeds, stack, found)
    ensures stack[|stack| - 1] in g.byId
    ensures var current, rest := stack[|stack| - 1], stack[..|stack| - 1];
            if current in found then FoundationSoFar(g, seeds, rest, found)
            else FoundationSoFar(g, seeds, rest + g.Blockers(current), found + {current})
  {
    var current, rest := stack[|stack| - 1], stack[..|stack| - 1];
    assert stack == rest + [current];
    assert current in stack && BeforeSeed(g, seeds, current);
    if current in found {
      forall x {:trigger Grounded(g, rest, found, x)} | x in found
        ensures Grounded(g, rest, found, x)
      {
        assert Grounded(g, stack, found, x);
      }
    } else {
      var stack', found' := rest + g.Blockers(current), found + {current};
      KnownTask(g, current);
      forall x {:trigger BeforeSeed(g, seeds, x)} | x in found' || x in stack'
        ensures BeforeSeed(g, seeds, x)
      {
        if x in g.Blockers(current) {
          var s :| s in seeds && Leads(g, current, s);
          LeadsBackward(g, x, current, s);
          LeadsOnIsLeads(g, x, s);
        }
      }
      forall x {:trigger Grounded(g, stack', found', x)} | x in found'
        ensures Grounded(g, stack', found', x)
      {
        if x != current {
          assert Grounded(g, stack, found, x);
        }
      }
    }
  }

  lemma FoundationDone(g: Graph, seeds: seq<Id>, found: set<Id>)
    requires g.Valid() && FoundationSoFar(g, seeds, [], found)
    ensures IsFoundation(g, seeds, found)
  {
    forall x, d | x in found && g.Waits(d, x)
      ensures d in found
    {
      assert Grounded(g, [], found, x);
    }
    forall x {:trigger BeforeSeed(g, seeds, x)}
      ensures x in found <==> BeforeSeed(g, seeds, x)
    {
      if BeforeSeed(g, seeds, x) {
        var s :| s in seeds && Leads(g, x, s);
        var p :| Joins(g, p, x, s);
        assert s in found;
        if |p| >= 2 {
          ClosedBackwards(g, found, p);
        }
      }
    }
  }

  // ---- what a plan's task waits for --------------------------------------------------------

  /** Everything `task` waits for. The plan is not validated here: names it does not have are passed over. */
  ghost predicate IsAncestry(g: Graph, task: Id, result: set<Id>) {
    forall x {:trigger x in result} {:trigger LeadsOn(g, x, task)} :: x in result <==> LeadsOn(g, x, task)
  }

  ghost predicate AncestrySoFar(g: Graph, task: Id, stack: seq<Id>, seen: set<Id>) {
    && seen <= g.Ids()
    && (forall x {:trigger LeadsOn(g, x, task)} :: x in g.byId && (x in seen || x in stack) ==> LeadsOn(g, x, task))
    && (task in g.byId ==> Grounded(g, stack, seen, task))
    && (forall x {:trigger Grounded(g, stack, seen, x)} :: x in seen ==> Grounded(g, stack, seen, x))
  }

  method Ancestors(g: Graph, task: Id) returns (seen: set<Id>)
    ensures IsAncestry(g, task, seen)
  {
    seen := {};
    var stack := if task in g.byId then g.Blockers(task) else [];
    AncestryStart(g, task, stack);
    while stack != []
      invariant AncestrySoFar(g, task, stack, seen)
      decreases g.Ids() - seen, |stack|
    {
      var current, rest := stack[|stack| - 1], stack[..|stack| - 1];
      AncestryStep(g, task, stack, seen);
      if current in seen || current !in g.byId {
        stack := rest;
      } else {
        seen := seen + {current};
        stack := rest + g.Blockers(current);
      }
    }
    AncestryDone(g, task, seen);
  }

  lemma AncestryStart(g: Graph, task: Id, stack: seq<Id>)
    requires stack == if task in g.byId then g.Blockers(task) else []
    ensures AncestrySoFar(g, task, stack, {})
  {
    forall x {:trigger LeadsOn(g, x, task)} | x in g.byId && x in stack
      ensures LeadsOn(g, x, task)
    {
      LeadsSelf(g, task);
      LeadsBackward(g, x, task, task);
    }
  }

  lemma AncestryStep(g: Graph, task: Id, stack: seq<Id>, seen: set<Id>)
    requires stack != [] && AncestrySoFar(g, task, stack, seen)
    ensures var current, rest := stack[|stack| - 1], stack[..|stack| - 1];
            if current in seen || current !in g.byId then AncestrySoFar(g, task, rest, seen)
            else AncestrySoFar(g, task, rest + g.Blockers(current), seen + {current})
  {
    var current, rest := stack[|stack| - 1], stack[..|stack| - 1];
    assert stack == rest + [current];
    var skip := current in seen || current !in g.byId;
    var stack' := if skip then rest else rest + g.Blockers(current);
    var seen' := if skip then seen else seen + {current};
    forall x {:trigger LeadsOn(g, x, task)} | x in g.byId && (x in seen' || x in stack')
      ensures LeadsOn(g, x, task)
    {
      if !skip && x in g.Blockers(current) {
        assert LeadsOn(g, current, task);
        LeadsOnIsLeads(g, current, task);
        LeadsBackward(g, x, current, task);
      }
    }
    forall x {:trigger Grounded(g, stack', seen', x)} | x in g.byId && (x in seen' || x == task)
      ensures Grounded(g, stack', seen', x)
    {
      if x in seen || x == task {
        assert Grounded(g, stack, seen, x);
      }
    }
  }

  lemma AncestryDone(g: Graph, task: Id, seen: set<Id>)
    requires AncestrySoFar(g, task, [], seen)
    ensures IsAncestry(g, task, seen)
  {
    forall x, d | x in seen && d in g.byId && g.Waits(d, x)
      ensures d in seen
    {
      assert Grounded(g, [], seen, x);
    }
    forall x {:trigger LeadsOn(g, x, task)}
      ensures x in seen <==> LeadsOn(g, x, task)
    {
      if LeadsOn(g, x, task) {
        var p :| Joins(g, p, x, task) && |p| >= 2;
        ClosedBackwards(g, seen, p);
      }
    }
  }

  // ---- they agree --------------------------------------------------------------------------

  /** t is in the ripple of s exactly when s is among what t stands on. */
  lemma RippleMirrorsFoundation(g: Graph, s: Id, t: Id, ripple: set<Id>, foundation: set<Id>)
    requires s != t
    requires IsRipple(g, [s], ripple) && IsFoundation(g, [t], foundation)
    ensures t in ripple <==> s in foundation
  {
    assert t in ripple <==> AfterSeed(g, [s], t);
    assert s in foundation <==> BeforeSeed(g, [t], s);
    if AfterSeed(g, [s], t) {
      LeadsOnIsLeads(g, s, t);
      assert t in [t];
    }
    if BeforeSeed(g, [t], s) {
      LeadsApart(g, s, t);
      assert s in [s];
    }
  }

  /** On a graph without cycles, what a task waits for is what it stands on without itself. */
  lemma AncestryIsFoundationWithoutSelf(g: Graph, t: Id, ancestry: set<Id>, foundation: set<Id>)
    requires Acyclic(g)
    requires IsAncestry(g, t, ancestry) && IsFoundation(g, [t], foundation)
    ensures ancestry == foundation - {t}
  {
    forall x
      ensures x in ancestry <==> x in foundation && x != t
    {
      assert x in ancestry <==> LeadsOn(g, x, t);
      assert x in foundation <==> BeforeSeed(g, [t], x);
      if LeadsOn(g, x, t) {
        LeadsOnIsLeads(g, x, t);
        assert t in [t];
        var p :| Joins(g, p, x, t) && |p| >= 2;
        assert x == t ==> Cycle(g, p);
      }
      if BeforeSeed(g, [t], x) && x != t {
        LeadsApart(g, x, t);
      }
    }
  }
}
