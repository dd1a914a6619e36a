/** Commits, and what the branches of a repository keep within reach. */
module CommitGraph {
  /** A commit is its parents and the work it records. */
  datatype Commit = Commit(parents: seq<Commit>, work: nat)

  type Branches = map<string, Commit>

  predicate Reachable(from: Commit, c: Commit)
    decreases from
  {
    from == c || exists i :: 0 <= i < |from.parents| && Reachable(from.parents[i], c)
  }

  lemma {:induction false} ReachesThrough(a: Commit, b: Commit, c: Commit)
    requires Reachable(a, b) && Reachable(b, c)
    ensures Reachable(a, c)
    decreases a
  {
    if a != b {
      var i :| 0 <= i < |a.parents| && Reachable(a.parents[i], b);
      ReachesThrough(a.parents[i], b, c);
    }
  }

  lemma ReachesParent(c: Commit, i: nat)
    requires i < |c.parents|
    ensures Reachable(c, c.parents[i])
  {
    assert Reachable(c.parents[i], c.parents[i]);
  }

  /** Some branch reaches the commit. */
  predicate Kept(branches: Branches, c: Commit) {
    exists b :: b in branches && Reachable(branches[b], c)
  }

  /** Every commit that was within reach of a branch still is. */
  ghost predicate Preserves(before: Branches, after: Branches) {
    forall c {:trigger Kept(after, c)} {:trigger Kept(before, c)} :: Kept(before, c) ==> Kept(after, c)
  }

  lemma PreservesThrough(a: Branches, b: Branches, c: Branches)
    requires Preserves(a, b) && Preserves(b, c)
    ensures Preserves(a, c)
  {
    forall x | Kept(a, x) ensures Kept(c, x) {
      assert Kept(b, x);
    }
  }

  /** Enough that each tip is within reach. */
  lemma TipsAreEnough(before: Branches, after: Branches)
    requires forall b :: b in before ==> Kept(after, before[b])
    ensures Preserves(before, after)
  {
    forall c | Kept(before, c) ensures Kept(after, c) {
      var b :| b in before && Reachable(before[b], c);
      var k :| k in after && Reachable(after[k], before[b]);
      ReachesThrough(after[k], before[b], c);
    }
  }

  lemma TipKept(branches: Branches, b: string)
    requires b in branches
    ensures Kept(branches, branches[b])
  {
    assert Reachable(branches[b], branches[b]);
  }

  /** A branch that only moves forward, or is new, loses nothing. */
  lemma MovingForward(before: Branches, b: string, tip: Commit)
    requires b in before ==> Reachable(tip, before[b])
    ensures Preserves(before, before[b := tip])
  {
    var after := before[b := tip];
    forall k | k in before ensures Kept(after, before[k]) {
      assert Reachable(before[k], before[k]);
      assert k in after && Reachable(after[k], before[k]);
    }
    TipsAreEnough(before, after);
  }

  function Renamed(branches: Branches, b: string, name: string): Branches
    requires b in branches
  {
    (branches - {b})[name := branches[b]]
  }

  lemma Renaming(before: Branches, b: string, name: string)
    requires b in before && name !in before
    ensures Preserves(before, Renamed(before, b, name))
  {
    var after := Renamed(before, b, name);
    forall k | k in before ensures Kept(after, before[k]) {
      TipKept(after, if k == b then name else k);
    }
    TipsAreEnough(before, after);
  }

  /** A branch may go when another reaches its tip. */
  lemma DeletingMerged(before: Branches, b: string, target: string)
    requires b in before && target in before && target != b && Reachable(before[target], before[b])
    ensures Preserves(before, before - {b})
  {
    var after := before - {b};
    forall k | k in before ensures Kept(after, before[k]) {
      if k == b {
        assert target in after && Reachable(after[target], before[k]);
      } else {
        TipKept(after, k);
      }
    }
    TipsAreEnough(before, after);
  }

  /** And only then. */
  lemma DeletingUnmerged(before: Branches, b: string)
    requires b in before && !Kept(before - {b}, before[b])
    ensures !Preserves(before, before - {b})
  {
    TipKept(before, b);
  }

  /** A branch may move anywhere once its tip has another name. */
  lemma MovingBackUnderName(before: Branches, b: string, kept: string, to': Commit)
    requires b in before && kept in before && kept != b && before[kept] == before[b]
    ensures Preserves(before, before[b := to'])
  {
    var after := before[b := to'];
    forall k | k in before ensures Kept(after, before[k]) {
      TipKept(after, if k == b then kept else k);
    }
    TipsAreEnough(before, after);
  }

  /** Where a merge leaves the head: where it was, at the tip, or on a commit of both. */
  function MergedHead(head: Commit, tip: Commit, fastForward: bool, work: nat): Commit {
    if Reachable(head, tip) then head
    else if fastForward && Reachable(tip, head) then tip
    else Commit([head, tip], work)
  }

  lemma MergeReachesBoth(head: Commit, tip: Commit, fastForward: bool, work: nat)
    ensures Reachable(MergedHead(head, tip, fastForward, work), head)
    ensures Reachable(MergedHead(head, tip, fastForward, work), tip)
  {
    var merged := MergedHead(head, tip, fastForward, work);
    if merged == Commit([head, tip], work) {
      ReachesParent(merged, 0);
      ReachesParent(merged, 1);
    }
  }
}
