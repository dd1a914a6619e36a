/** The steps of a build that move branches and remove worktrees, and what they keep
    (src/rein/build_git.py). */
module Preservation {
  import opened Optional
  import opened CommitGraph
  import opened GitWork

  // ---- names ---------------------------------------------------------------------------------

  function Digit(n: nat): char
    requires n < 10
  {
    '0' + n as char
  }

  function Decimal(n: nat): string {
    if n < 10 then [Digit(n)] else Decimal(n / 10) + [Digit(n % 10)]
  }

  lemma {:induction false} DecimalsDiffer(m: nat, n: nat)
    requires Decimal(m) == Decimal(n)
    ensures m == n
  {
    DecimalIsNonempty(m / 10);
    DecimalIsNonempty(n / 10);
    var p, q := Decimal(m), Decimal(n);
    assert p[|p| - 1] == q[|q| - 1];
    if m >= 10 && n >= 10 {
      assert p[..|p| - 1] == Decimal(m / 10) && q[..|q| - 1] == Decimal(n / 10);
      DecimalsDiffer(m / 10, n / 10);
    }
  }

  lemma DecimalIsNonempty(n: nat)
    ensures |Decimal(n)| >= 1
  {
  }

  function Candidate(branch: string, stamp: string, n: nat): string {
    branch + "-salvage-" + stamp + if n <= 1 then "" else "-" + Decimal(n)
  }

  lemma CandidatesDiffer(branch: string, stamp: string, m: nat, n: nat)
    requires 1 <= m < n
    ensures Candidate(branch, stamp, m) != Candidate(branch, stamp, n)
  {
    var stem := branch + "-salvage-" + stamp;
    DecimalIsNonempty(n);
    if Candidate(branch, stamp, m) == Candidate(branch, stamp, n) {
      assert Candidate(branch, stamp, m)[|stem|..] == Candidate(branch, stamp, n)[|stem|..];
      assert Candidate(branch, stamp, n)[|stem|..] == "-" + Decimal(n);
      if m > 1 {
        assert Candidate(branch, stamp, m)[|stem|..] == "-" + Decimal(m);
        assert ("-" + Decimal(m))[1..] == Decimal(m) && ("-" + Decimal(n))[1..] == Decimal(n);
        DecimalsDiffer(m, n);
      }
    }
  }

  /** A candidate is not one of those tried before it. */
  lemma TriedOnce(branch: string, stamp: string, n: nat, tried: set<string>)
    requires tried == (set k | 1 <= k < n :: Candidate(branch, stamp, k))
    ensures n >= 1 ==> Candidate(branch, stamp, n) !in tried
  {
    forall k | 1 <= k < n ensures Candidate(branch, stamp, k) != Candidate(branch, stamp, n) {
      CandidatesDiffer(branch, stamp, k, n);
    }
  }

  lemma SmallerLeft(left: set<string>, name: string)
    requires name in left
    ensures |left - {name}| < |left|
  {
  }

  /** `_salvage_name`: a free name, unless git failed to say that it was taken. */
  method SalvageName(git: Git, branch: string, stamp: string) returns (name: string, ghost failed: bool)
    ensures IsCandidate(name, branch, stamp)
    ensures branch + "-salvage-" + stamp <= name
    ensures failed || name !in git.now.branches
    ensures git.answers ==> !failed
  {
    var n := 1;
    name := Candidate(branch, stamp, n);
    ghost var left := git.now.branches.Keys;
    var found;
    found, failed := git.RevParse(name);
    while found
      invariant n >= 1 && name == Candidate(branch, stamp, n)
      invariant found == (name in git.now.branches && !failed) && (git.answers ==> !failed)
      invariant left == git.now.branches.Keys - (set k | 1 <= k < n :: Candidate(branch, stamp, k))
      decreases |left| + if found then 1 else 0
    {
      TriedOnce(branch, stamp, n, set k | 1 <= k < n :: Candidate(branch, stamp, k));
      SmallerLeft(left, name);
      assert (set k | 1 <= k < n + 1 :: Candidate(branch, stamp, k)) == (set k | 1 <= k < n :: Candidate(branch, stamp, k)) + {name};
      left := left - {name};
      n := n + 1;
      name := Candidate(branch, stamp, n);
      found, failed := git.RevParse(name);
    }
    assert IsCandidateAt(name, branch, stamp, n);
  }

  /** The first occurrence of `part` replaced, if there is one. */
  function ReplaceFirst(s: string, part: string, with: string): string
    decreases |s|
  {
    if part <= s then with + s[|part|..]
    else if s == "" then ""
    else [s[0]] + ReplaceFirst(s[1..], part, with)
  }

  // ---- committing what is outstanding ------------------------------------------------------------

  /** What finalizing a checkout leaves. */
  function Finalized(s: State, p: string): State
    requires s.Valid()
  {
    if p in s.trees && s.trees[p].diff.Some? then Committed(s, p) else s
  }

  lemma FinalizingLosesNothing(s: State, p: string)
    requires s.Valid()
    ensures Finalized(s, p).Valid() && NothingLost(s, Finalized(s, p))
    ensures p in s.trees ==> p in Finalized(s, p).trees && Finalized(s, p).trees[p] == Tree(Finalized(s, p).trees[p].head, None)
    ensures p !in s.trees ==> p !in Finalized(s, p).trees
    ensures Finalized(s, p).branches.Keys == s.branches.Keys
  {
    if p in s.trees && s.trees[p].diff.Some? {
      CommittingLosesNothing(s, p);
    }
  }

  /** `finalize_commit`: false when the checkout is not there or a call failed. */
  method FinalizeCommit(git: Git, p: string) returns (ok: bool, ghost failed: bool)
    requires git.Valid()
    modifies git
    ensures git.Valid() && ok == (p in old(git.now).trees && !failed) && (git.answers ==> !failed)
    ensures git.now == if ok then Finalized(old(git.now), p) else old(git.now)
  {
    var clean;
    ok, clean, failed := git.Status(p);
    if ok && !clean {
      ok, failed := git.AddAndCommit(p);
    }
  }

  // ---- a leftover of an earlier run -------------------------------------------------------------------

  datatype Salvaged = Stopped | Cleared | Salvaged(name: string)

  /** What salvaging may do to the branches, once the leftover checkout is finalized. */
  ghost predicate SalvageOf(before: State, after: State, result: Salvaged, b: string, target: string) {
    match result
    case Stopped => after.branches == before.branches
    case Salvaged(name) =>
      b in before.branches && name !in before.branches && after.branches == Renamed(before.branches, b, name)
    case Cleared =>
      after.branches == before.branches
      || (b in before.branches && target in before.branches && Reachable(before.branches[target], before.branches[b])
          && after.branches == before.branches - {b})
  }

  /** The branch is there, and the one that is to have it all is not, or lacks some of it. */
  predicate Unmerged(branches: Branches, b: string, target: string) {
    b in branches && !(target in branches && Reachable(branches[target], branches[b]))
  }

  predicate CheckedOut(s: State, b: string) {
    exists p :: p in s.trees && s.trees[p].head == On(b)
  }

  predicate IsCandidateAt(name: string, b: string, stamp: string, n: nat) {
    n >= 1 && name == Candidate(b, stamp, n)
  }

  ghost predicate IsCandidate(name: string, b: string, stamp: string) {
    exists n :: IsCandidateAt(name, b, stamp, n)
  }

  /** The branch is not the one that is to have it all, or something else reaches what it holds. */
  ghost predicate Spared(branches: Branches, b: string, target: string) {
    b != target || b !in branches || Kept(branches - {b}, branches[b])
  }

  lemma DeletingSparedLosesNothing(s: State, b: string, target: string)
    requires s.Valid() && b in s.branches && target in s.branches
    requires Reachable(s.branches[target], s.branches[b]) && Spared(s.branches, b, target)
    ensures NothingLost(s, s.(branches := s.branches - {b}))
  {
    if b == target {
      DeletingIsSafeIff(s.branches, b);
    } else {
      DeletingMergedLosesNothing(s, b, target);
    }
  }

  lemma DeletingMergedLosesNothing(s: State, b: string, target: string)
    requires s.Valid() && b in s.branches && target in s.branches && b != target
    requires Reachable(s.branches[target], s.branches[b])
    ensures NothingLost(s, s.(branches := s.branches - {b}))
  {
    DeletingMerged(s.branches, b, target);
  }

  /** The branch half of `_salvage_leftovers`: deleted when the target has all of it, kept under another
      name when it does not, or when git cannot tell. */
  method ClearBranch(git: Git, b: string, target: string, stamp: string) returns (result: Salvaged, ghost failed: bool)
    requires git.Valid()
    modifies git
    ensures git.answers ==> !failed
    ensures !failed ==>
              if Unmerged(old(git.now).branches, b, target) then result.Salvaged? && IsCandidate(result.name, b, stamp)
              else result.Cleared? && (b in git.now.branches ==> CheckedOut(old(git.now), b))
    ensures git.Valid() && (Spared(old(git.now).branches, b, target) ==> NothingLost(old(git.now), git.now))
    ensures SalvageOf(old(git.now), git.now, result, b, target)
    ensures git.now.trees.Keys == old(git.now).trees.Keys
  {
    var found;
    found, failed := git.RevParse(b);
    if !found {
      return Cleared, failed;
    }
    var ok, none;
    ghost var again;
    ok, none, again := git.RevList(b, target);
    failed := failed || again;
    if !ok || !none {
      var name;
      name, again := SalvageName(git, b, stamp);
      failed := failed || again;
      var renamed;
      renamed, again := git.RenameBranch(b, name);
      failed := failed || again;
      if !renamed {
        return Stopped, failed;
      }
      RenamingLosesNothing(old(git.now), b, name);
      return Salvaged(name), failed;
    }
    if Spared(git.now.branches, b, target) {
      DeletingSparedLosesNothing(git.now, b, target);
    }
    var deleted;
    deleted, again := git.DeleteBranch(b);
    return Cleared, failed || again;
  }

  /** `_salvage_leftovers`: what is left of a previous run is preserved, and only then cleared. A leaf's
      branch that is the branch it lands on is within its own reach, and goes, with all that nothing else
      reaches. */
  method SalvageLeftovers(git: Git, b: string, p: string, target: string, stamp: string, isDir: bool)
    returns (result: Salvaged, ghost failed: bool)
    requires git.Valid() && (p in git.now.trees ==> isDir)
    modifies git
    ensures git.Valid() && (Spared(Finalized(old(git.now), p).branches, b, target) ==> NothingLost(old(git.now), git.now))
    ensures (result.Stopped? && git.now == old(git.now)) || SalvageOf(Finalized(old(git.now), p), git.now, result, b, target)
    ensures git.now.trees.Keys == old(git.now).trees.Keys || git.now.trees.Keys == old(git.now).trees.Keys - {p}
    ensures git.answers ==> !failed
    ensures !failed && (isDir ==> p in old(git.now).trees) ==>
              && p !in git.now.trees
              && if Unmerged(Finalized(old(git.now), p).branches, b, target) then result.Salvaged? && IsCandidate(result.name, b, stamp)
                 else result.Cleared? && (b in git.now.branches ==> CheckedOut(Without(old(git.now), p), b))
  {
    ghost var start := git.now;
    ghost var again;
    failed := false;
    FinalizingLosesNothing(start, p);
    if isDir {
      var ok;
      ok, failed := FinalizeCommit(git, p);
      if !ok {
        return Stopped, failed;
      }
    }
    ghost var finalized := git.now;
    RemovingCleanLosesNothing(finalized, p);
    var gone;
    gone, again := git.RemoveWorktree(p);
    failed := failed || again;
    ghost var removed := git.now;
    NothingLostThrough(start, finalized, removed);
    result, again := ClearBranch(git, b, target, stamp);
    failed := failed || again;
    if Spared(finalized.branches, b, target) {
      NothingLostThrough(start, removed, git.now);
    }
    CheckedOutElsewhere(start, p, b);
    if !failed {
      assert removed.trees == Without(finalized, p).trees;
      SameCheckouts(removed, Without(finalized, p), b);
    }
  }

  lemma SameCheckouts(s: State, t: State, b: string)
    requires s.trees == t.trees
    ensures CheckedOut(s, b) <==> CheckedOut(t, b)
  {
  }

  /** Finalizing a checkout leaves the heads of the others. */
  lemma CheckedOutElsewhere(s: State, p: string, b: string)
    requires s.Valid()
    ensures CheckedOut(Without(Finalized(s, p), p), b) <==> CheckedOut(Without(s, p), b)
  {
    var after := Finalized(s, p);
    assert forall q :: q in s.trees && q != p ==> q in after.trees && after.trees[q] == s.trees[q];
    assert forall q :: q in after.trees && q != p ==> q in s.trees;
    if CheckedOut(Without(after, p), b) {
      var q :| q in Without(after, p).trees && Without(after, p).trees[q].head == On(b);
      assert q in Without(s, p).trees && Without(s, p).trees[q].head == On(b);
    }
    if CheckedOut(Without(s, p), b) {
      var q :| q in Without(s, p).trees && Without(s, p).trees[q].head == On(b);
      assert q in Without(after, p).trees && Without(after, p).trees[q].head == On(b);
    }
  }

  // ---- a fresh worktree -------------------------------------------------------------------------------

  datatype Restored = NothingToRestore | MergedBack | LeftConflicting

  /** `_restore_salvaged`: preserved work merged onto a fresh worktree. */
  method RestoreSalvaged(git: Git, p: string, salvage: string) returns (outcome: Restored, ghost work: nat)
    requires git.Valid()
    modifies git
    ensures git.Valid() && NothingLost(old(git.now), git.now)
    ensures git.answers ==>
              outcome == if salvage == "" || salvage !in old(git.now).branches then NothingToRestore
                         else if p in old(git.now).trees && !git.Conflicting(old(git.now).HeadOf(p), old(git.now).branches[salvage])
                         then MergedBack else LeftConflicting
    ensures !outcome.MergedBack? ==> git.now == old(git.now)
    ensures outcome.MergedBack? ==>
              && p in old(git.now).trees && salvage in old(git.now).branches
              && git.now == old(git.now).Moved(p, MergedHead(old(git.now).HeadOf(p), old(git.now).branches[salvage], true, work))
  {
    work := 0;
    if salvage == "" {
      return NothingToRestore, work;
    }
    var found, _ := git.RevParse(salvage);
    if !found {
      return NothingToRestore, work;
    }
    ghost var before := git.now;
    var ok;
    ghost var failed;
    ok, work, failed := git.Merge(p, salvage, true);
    if !ok {
      return LeftConflicting, work;
    }
    MergeReachesBoth(before.HeadOf(p), before.branches[salvage], true, work);
    MovingForwardLosesNothing(before, p, MergedHead(before.HeadOf(p), before.branches[salvage], true, work));
    return MergedBack, work;
  }

  datatype Added = NotAdded | Added(restored: Restored)

  /** `add_worktree`: on the target's tip, clean, with the preserved work on top when it merges. With every
      call answered it is made whenever it can be, from what the leaf's branch held that the target had not,
      or else from what it is told to restore. */
  method AddWorktree(git: Git, b: string, p: string, target: string, restoreFrom: string, stamp: string, isDir: bool)
    returns (result: Added, salvage: string)
    requires git.Valid() && (p in git.now.trees ==> isDir)
    modifies git
    ensures git.Valid() && (Spared(Finalized(old(git.now), p).branches, b, target) ==> NothingLost(old(git.now), git.now))
    ensures git.answers && MayBeAdded(old(git.now), b, p, target, isDir) ==>
              && result.Added?
              && if Unmerged(Finalized(old(git.now), p).branches, b, target) then IsCandidate(salvage, b, stamp) && salvage in git.now.branches
                 else salvage == restoreFrom
    ensures result.Added? ==>
              && p in git.now.trees && git.now.trees[p] == Tree(On(b), None)
              && b in git.now.branches && target in git.now.branches
              && Reachable(git.now.branches[b], git.now.branches[target])
    ensures git.answers && result.Added? ==>
              result.restored == if salvage == "" || salvage !in git.now.branches then NothingToRestore
                                 else if RestoredInto(git, b, target, salvage) then MergedBack else LeftConflicting
    ensures result == Added(MergedBack) ==>
              salvage in git.now.branches && Reachable(git.now.branches[b], git.now.branches[salvage])
    ensures result == Added(LeftConflicting) || result == Added(NothingToRestore) ==>
              git.now.branches[b] == git.now.branches[target]
    ensures salvage != restoreFrom ==> salvage !in old(git.now).branches
  {
    salvage := restoreFrom;
    ghost var start := git.now;
    var salvaged, _ := SalvageLeftovers(git, b, p, target, stamp, isDir);
    if salvaged.Stopped? {
      return NotAdded, salvage;
    }
    ghost var cleared := git.now;
    FinalizingLosesNothing(start, p);
    var ok, _ := git.AddWorktree(b, p, target);
    if !ok {
      return NotAdded, salvage;
    }
    ghost var added := git.now;
    AddingLosesNothing(cleared, b, p, target);
    if salvaged.Salvaged? {
      salvage := salvaged.name;
    }
    var outcome;
    ghost var work;
    outcome, work := RestoreSalvaged(git, p, salvage);
    if outcome.MergedBack? {
      MergeReachesBoth(added.branches[b], added.branches[salvage], true, work);
    }
    NothingLostThrough(cleared, added, git.now);
    if Spared(Finalized(start, p).branches, b, target) {
      NothingLostThrough(start, cleared, git.now);
    }
    result := Added(outcome);
  }

  /** The preserved work is the leaf's own branch, or merges with the tip it starts from. */
  predicate RestoredInto(git: Git, b: string, target: string, salvage: string)
    reads git
    requires target in git.now.branches && salvage in git.now.branches
  {
    salvage == b || !git.Conflicting(git.now.branches[target], git.now.branches[salvage])
  }

  /** What is in the way of a worktree is one of git's, the branch is checked out nowhere else, and the one
      it starts from is there, and another. */
  predicate MayBeAdded(s: State, b: string, p: string, target: string, isDir: bool) {
    (isDir ==> p in s.trees) && !CheckedOut(Without(s, p), b) && target in s.branches && b != target
  }

  lemma AddingLosesNothing(s: State, b: string, p: string, target: string)
    requires s.Valid() && b !in s.branches && p !in s.trees && target in s.branches
    ensures NothingLost(s, State(s.branches[b := s.branches[target]], s.trees[p := Tree(On(b), None)]))
  {
    MovingForward(s.branches, b, s.branches[target]);
  }

  // ---- set aside, clean up, take off, merge ------------------------------------------------------------

  datatype Aside = CouldNot | NothingThere | SetAsideAs(name: string)

  /** `set_aside`: renamed out of the way, never deleted. */
  method SetAside(git: Git, b: string, stamp: string) returns (result: Aside, ghost failed: bool)
    requires git.Valid()
    modifies git
    ensures git.Valid() && NothingLost(old(git.now), git.now)
    ensures git.answers ==> !failed
    ensures !failed ==> (result.NothingThere? <==> b !in old(git.now).branches)
    ensures !failed && result.CouldNot? ==> exists n :: n >= 1 && AsideName(b, stamp, n) in old(git.now).branches
    ensures !result.SetAsideAs? ==> git.now == old(git.now)
    ensures result.SetAsideAs? ==>
              && b in old(git.now).branches && result.name !in old(git.now).branches && git.now == RenamedIn(old(git.now), b, result.name)
              && b !in git.now.branches && result.name in git.now.branches
              && git.now.branches[result.name] == old(git.now).branches[b]
              && git.now.branches - {result.name} == old(git.now).branches - {b}
    ensures result.SetAsideAs? ==> exists n :: n >= 1 && result.name == AsideName(b, stamp, n)
  {
    var found;
    found, failed := git.RevParse(b);
    if !found {
      return NothingThere, failed;
    }
    ghost var again;
    var name;
    name, again := SalvageName(git, b, stamp);
    failed := failed || again;
    ghost var n :| IsCandidateAt(name, b, stamp, n);
    var kept := ReplaceFirst(name, "-salvage-", "-bundle-");
    assert kept == AsideName(b, stamp, n);
    // Nothing says this name is free: git refuses the rename when it is not.
    var ok;
    ok, again := git.RenameBranch(b, kept);
    failed := failed || again;
    if !ok {
      return CouldNot, failed;
    }
    RenamingLosesNothing(old(git.now), b, kept);
    return SetAsideAs(kept), failed;
  }

  function AsideName(b: string, stamp: string, n: nat): string {
    ReplaceFirst(Candidate(b, stamp, n), "-salvage-", "-bundle-")
  }

  /** `cleanup_worktree`: the checkout goes only once what it held is committed, and then it goes. */
  method CleanupWorktree(git: Git, p: string) returns (removed: bool, ghost failed: bool)
    requires git.Valid()
    modifies git
    ensures git.Valid() && NothingLost(old(git.now), git.now)
    ensures removed == (p in old(git.now).trees && !failed) && (git.answers ==> !failed)
    ensures removed ==> git.now == Without(Finalized(old(git.now), p), p)
    ensures !removed ==> git.now == old(git.now) || git.now == Finalized(old(git.now), p)
  {
    ghost var start := git.now;
    FinalizingLosesNothing(start, p);
    var ok;
    ok, failed := FinalizeCommit(git, p);
    if !ok {
      return false, failed;
    }
    RemovingCleanLosesNothing(git.now, p);
    NothingLostThrough(start, git.now, Without(git.now, p));
    removed, failed := git.RemoveWorktree(p);
  }

  lemma MovingBackLosesNothing(s: State, p: string, kept: string, c: Commit)
    requires s.Valid() && p in s.trees && kept !in s.branches
    ensures NothingLost(s, s.(branches := s.branches[kept := s.HeadOf(p)]).Moved(p, c))
    ensures s.(branches := s.branches[kept := s.HeadOf(p)]).Valid()
  {
    var named := s.(branches := s.branches[kept := s.HeadOf(p)]);
    MovingForward(s.branches, kept, s.HeadOf(p));
    if s.trees[p].head.On? {
      MovingBackUnderName(named.branches, s.trees[p].head.branch, kept, c);
      PreservesThrough(s.branches, named.branches, named.Moved(p, c).branches);
    }
  }

  lemma NamingLosesNothing(s: State, kept: string, c: Commit)
    requires s.Valid() && kept !in s.branches
    ensures NothingLost(s, s.(branches := s.branches[kept := c]))
    ensures s.branches[kept := c] - {kept} == s.branches
  {
    MovingForward(s.branches, kept, c);
  }

  /** `take_off_join`: the checkout's branch moved back, and everything above kept under another name. */
  method TakeOffJoin(git: Git, root: string, kept: string, before: Commit) returns (ok: bool, ghost failed: bool)
    requires git.Valid()
    modifies git
    ensures git.Valid() && NothingLost(old(git.now), git.now)
    ensures ok == (root in old(git.now).trees && kept !in old(git.now).branches && !failed) && (git.answers ==> !failed)
    ensures ok ==>
              git.now == old(git.now).(branches := old(git.now).branches[kept := old(git.now).HeadOf(root)]).Moved(root, before)
    ensures !ok ==> git.now.trees == old(git.now).trees && git.now.branches - {kept} == old(git.now).branches - {kept}
  {
    ghost var start := git.now;
    ok, failed := git.CreateBranch(kept, root);
    if !ok {
      return;
    }
    NamingLosesNothing(start, kept, start.HeadOf(root));
    MovingBackLosesNothing(start, root, kept, before);
    ok, failed := git.ResetKeep(root, before);
    if !ok {
      var _, _ := git.DeleteBranch(kept);
    }
  }

  datatype Landed = Merged | Conflicted | NotRemoved

  /** The checkout's head moved to the merge, and the leaf's worktree gone or not. */
  function MergedAt(s: State, cwd: string, tip: Commit, p: string, removed: bool): State
    requires cwd in s.trees
  {
    if removed then Without(s.Moved(cwd, tip), p) else s.Moved(cwd, tip)
  }

  /** Where landing leaves the head: where it was when it had the leaf's tip, or else on a commit of both. */
  predicate LandsOn(head: Commit, leaf: Commit, work: nat, tip: Commit) {
    tip == if Reachable(head, leaf) then head else Commit([head, leaf], work)
  }

  /** `merge_leaf`: merged into the branch checked out at `cwd`, and the leaf's worktree removed. Its
      uncommitted work is the caller's to have finalized. */
  method MergeLeaf(git: Git, b: string, p: string, cwd: string)
    returns (result: Landed, ghost tip: Commit, ghost mergeFailed: bool, ghost removeFailed: bool)
    requires git.Valid()
    modifies git
    ensures git.Valid() && Preserves(old(git.now).branches, git.now.branches)
    ensures old(p in git.now.trees ==> git.now.trees[p].diff.None?) ==> NothingLost(old(git.now), git.now)
    ensures result.Conflicted? <==> mergeFailed || cwd !in old(git.now).trees || b !in old(git.now).branches
    ensures result.Conflicted? ==> git.now == old(git.now)
    ensures git.answers ==> !removeFailed
    ensures git.answers && cwd in old(git.now).trees && b in old(git.now).branches ==>
              (result.Conflicted? <==> git.Conflicting(old(git.now).HeadOf(cwd), old(git.now).branches[b]))
    ensures !result.Conflicted? ==>
              && (result.Merged? <==> p in old(git.now).trees && !removeFailed)
              && (exists work :: LandsOn(old(git.now).HeadOf(cwd), old(git.now).branches[b], work, tip))
              && Reachable(tip, old(git.now).branches[b]) && Reachable(tip, old(git.now).HeadOf(cwd))
              && git.now == MergedAt(old(git.now), cwd, tip, p, result.Merged?)
  {
    ghost var start := git.now;
    var ok;
    ghost var work;
    ok, work, mergeFailed := git.Merge(cwd, b, false);
    tip, removeFailed := Commit([], 0), false;
    if !ok {
      return Conflicted, tip, mergeFailed, removeFailed;
    }
    ghost var merged := git.now;
    tip := MergedHead(start.HeadOf(cwd), start.branches[b], false, work);
    assert LandsOn(start.HeadOf(cwd), start.branches[b], work, tip);
    MergeReachesBoth(start.HeadOf(cwd), start.branches[b], false, work);
    MovingForwardLosesNothing(start, cwd, tip);
    if old(p in git.now.trees ==> git.now.trees[p].diff.None?) {
      RemovingCleanLosesNothing(merged, p);
      NothingLostThrough(start, merged, Without(merged, p));
    }
    var removed;
    removed, removeFailed := git.RemoveWorktree(p);
    result := if removed then Merged else NotRemoved;
  }

  // ---- every sequence ----------------------------------------------------------------------------------------

  /** A step of the build, or something done in a checkout meanwhile: an edit, a commit, another head. */
  datatype Op =
    | Add(b: string, p: string, target: string, restoreFrom: string, stamp: string)
    | Aside(b: string, stamp: string)
    | Cleanup(p: string)
    | TakeOff(root: string, kept: string, before: Commit)
    | Land(b: string, p: string, cwd: string)
    | Finish(b: string, p: string, cwd: string) // finalized, and then landed
    | Edit(p: string, diff: Option<nat>)
    | CommitThere(p: string)
    | Switch(p: string, head: Head)
  {
    /** The step clears no branch out of the way that is the one the leaf lands on and, with what is
        outstanding in its worktree, holds what no other reaches. */
    ghost predicate Sparing(s: State) {
      s.Valid() && (Add? ==> Spared(Finalized(s, p).branches, b, target))
    }

    /** The work this step is answerable for: everything but what a person or an agent edits or walks
        away from, and a worktree merged before it was finalized. */
    ghost predicate Answerable(s: State) {
      && Sparing(s) && !Edit? && !Switch?
      && (Land? ==> p in s.trees ==> s.trees[p].diff.None?)
    }
  }

  /** What the loop does with a leaf that passed: finalized, and landed only if that went through. It lands
      whenever it can be: with everything there and every call answered, its checkout's work on the tip. */
  method FinishLeaf(git: Git, b: string, p: string, cwd: string) returns (landed: bool, ghost tip: Commit, ghost failed: bool)
    requires git.Valid()
    modifies git
    ensures git.Valid() && NothingLost(old(git.now), git.now)
    ensures landed == (p in old(git.now).trees && cwd in old(git.now).trees && b in old(git.now).branches && !failed)
    ensures git.answers && p in old(git.now).trees && cwd in old(git.now).trees && b in old(git.now).branches ==>
              (landed <==> LandsCleanly(git, Finalized(old(git.now), p), b, cwd))
    ensures landed ==>
              && cwd in Finalized(old(git.now), p).trees && b in Finalized(old(git.now), p).branches
              && Reachable(tip, Finalized(old(git.now), p).branches[b])
              && Reachable(tip, Finalized(old(git.now), p).HeadOf(cwd))
              && git.now == MergedAt(Finalized(old(git.now), p), cwd, tip, p, true)
  {
    ghost var start := git.now;
    FinalizingLosesNothing(start, p);
    tip := Commit([], 0);
    var ok;
    ok, failed := FinalizeCommit(git, p);
    if !ok {
      return false, tip, failed;
    }
    ghost var finalized := git.now;
    ghost var mergeFailed, removeFailed;
    var result;
    result, tip, mergeFailed, removeFailed := MergeLeaf(git, b, p, cwd);
    NothingLostThrough(start, finalized, git.now);
    landed, failed := result.Merged?, mergeFailed || removeFailed;
  }

  ghost predicate LandsCleanly(git: Git, s: State, b: string, cwd: string) {
    s.Valid() && cwd in s.trees && b in s.branches && !git.Conflicting(s.HeadOf(cwd), s.branches[b])
  }

  /** What the step does when every call is answered and nothing is in its way. */
  ghost predicate Happens(git: Git, op: Op, before: State, after: State) {
    before.Valid() &&
    match op
    case Add(b, p, target, restoreFrom, stamp) =>
      p in before.trees && MayBeAdded(before, b, p, target, true) ==> p in after.trees && after.trees[p] == Tree(On(b), None)
    case Aside(b, stamp) =>
      b in before.branches && (forall n :: n >= 1 ==> AsideName(b, stamp, n) !in before.branches) ==> b !in after.branches
    case Cleanup(p) => p in before.trees ==> after == Without(Finalized(before, p), p)
    case TakeOff(root, kept, c) =>
      root in before.trees && kept !in before.branches ==>
        after == before.(branches := before.branches[kept := before.HeadOf(root)]).Moved(root, c)
    case Land(b, p, cwd) => p in before.trees && LandsCleanly(git, before, b, cwd) ==> HasLanded(before, after, b, p, cwd)
    case Finish(b, p, cwd) =>
      p in before.trees && LandsCleanly(git, Finalized(before, p), b, cwd) ==> HasLanded(Finalized(before, p), after, b, p, cwd)
    case Edit(p, diff) => p in before.trees ==> after == before.(trees := before.trees[p := before.trees[p].(diff := diff)])
    case CommitThere(p) => p in before.trees && before.trees[p].diff.Some? ==> after == Committed(before, p)
    case Switch(p, head) =>
      p in before.trees && (head.On? ==> head.branch in before.branches) ==>
        after == before.(trees := before.trees[p := before.trees[p].(head := head)])
  }

  /** The checkout's head is a commit that reaches the leaf's tip and its own, and the leaf's worktree is gone. */
  ghost predicate HasLanded(before: State, after: State, b: string, p: string, cwd: string) {
    before.Valid() && cwd in before.trees && b in before.branches &&
    exists tip :: && Reachable(tip, before.branches[b]) && Reachable(tip, before.HeadOf(cwd))
                  && after == MergedAt(before, cwd, tip, p, true)
  }

  method Do(git: Git, op: Op)
    requires git.Valid()
    modifies git
    ensures git.answers ==> Happens(git, op, old(git.now), git.now)
    ensures git.Valid() && (op.Sparing(old(git.now)) ==> Preserves(old(git.now).branches, git.now.branches))
    ensures op.Answerable(old(git.now)) ==> NothingLost(old(git.now), git.now)
  {
    match op
    case Add(b, p, target, restoreFrom, stamp) =>
      var strayDir: bool := *;
      var _, _ := AddWorktree(git, b, p, target, restoreFrom, stamp, strayDir || p in git.now.trees);
    case Aside(b, stamp) =>
      var _, _ := SetAside(git, b, stamp);
    case Cleanup(p) =>
      var _, _ := CleanupWorktree(git, p);
    case TakeOff(root, kept, before) =>
      var _, _ := TakeOffJoin(git, root, kept, before);
    case Land(b, p, cwd) =>
      var _, _, _, _ := MergeLeaf(git, b, p, cwd);
    case Finish(b, p, cwd) =>
      var _, _, _ := FinishLeaf(git, b, p, cwd);
    case Edit(p, diff) =>
      if p in git.now.trees {
        git.now := git.now.(trees := git.now.trees[p := git.now.trees[p].(diff := diff)]);
      }
    case CommitThere(p) =>
      if p in git.now.trees && git.now.trees[p].diff.Some? {
        CommittingLosesNothing(git.now, p);
        var _, _ := git.AddAndCommit(p);
      }
    case Switch(p, head) =>
      if p in git.now.trees && (head.On? ==> head.branch in git.now.branches) {
        git.now := git.now.(trees := git.now.trees[p := git.now.trees[p].(head := head)]);
      }
  }

  /** Steps one after another, each answerable for what was not committed when it began, lose none of it. */
  lemma {:induction false} StretchLosesNothing(ops: seq<Op>, trace: seq<State>, i: nat, j: nat)
    requires i <= j <= |ops| && |trace| == |ops| + 1
    requires forall k :: i <= k < j ==> ops[k].Answerable(trace[k]) && NothingLost(trace[k], trace[k + 1])
    ensures NothingLost(trace[i], trace[j])
    decreases j
  {
    if i < j {
      StretchLosesNothing(ops, trace, i, j - 1);
      NothingLostThrough(trace[i], trace[j - 1], trace[j]);
    }
  }

  lemma {:induction false} StretchPreserves(trace: seq<State>, i: nat, j: nat)
    requires i <= j < |trace|
    requires forall k :: i <= k < j ==> Preserves(trace[k].branches, trace[k + 1].branches)
    ensures Preserves(trace[i].branches, trace[j].branches)
    decreases j
  {
    if i < j {
      StretchPreserves(trace, i, j - 1);
      PreservesThrough(trace[i].branches, trace[j - 1].branches, trace[j].branches);
    }
  }

  /** Every step from i to j is sparing. */
  ghost predicate AllSparing(ops: seq<Op>, trace: seq<State>, i: nat, j: nat)
    requires j <= |ops| && |trace| == |ops| + 1
  {
    forall k :: i <= k < j ==> ops[k].Sparing(trace[k])
  }

  ghost predicate AllAnswerable(ops: seq<Op>, trace: seq<State>, i: nat, j: nat)
    requires j <= |ops| && |trace| == |ops| + 1
  {
    forall k :: i <= k < j ==> ops[k].Answerable(trace[k])
  }

  /** Nothing unmerged is ever the only copy: over every stretch of every sequence of steps, with any of
      git's calls failing, each commit once within reach of a branch stays within reach of one, unless a
      leaf's branch is the one it lands on; and over every stretch without an edit, another head or a
      landing unfinalized, uncommitted work on a branch stays where it was or comes to be on one. */
  method DoAll(git: Git, ops: seq<Op>) returns (ghost trace: seq<State>)
    requires git.Valid()
    modifies git
    ensures git.Valid() && |trace| == |ops| + 1 && trace[0] == old(git.now) && trace[|ops|] == git.now
    ensures git.answers ==> forall i :: 0 <= i < |ops| ==> Happens(git, ops[i], trace[i], trace[i + 1])
    ensures forall i, j :: 0 <= i <= j <= |ops| && AllSparing(ops, trace, i, j) ==> Preserves(trace[i].branches, trace[j].branches)
    ensures forall i, j :: 0 <= i <= j <= |ops| && AllAnswerable(ops, trace, i, j) ==> NothingLost(trace[i], trace[j])
  {
    trace := [git.now];
    for n := 0 to |ops|
      invariant git.Valid()
      invariant |trace| == n + 1 && trace[0] == old(git.now) && trace[n] == git.now
      invariant git.answers ==> forall i :: 0 <= i < n ==> Happens(git, ops[i], trace[i], trace[i + 1])
      invariant forall i :: 0 <= i < n && ops[i].Sparing(trace[i]) ==> Preserves(trace[i].branches, trace[i + 1].branches)
      invariant forall i :: 0 <= i < n && ops[i].Answerable(trace[i]) ==> NothingLost(trace[i], trace[i + 1])
    {
      Do(git, ops[n]);
      trace := trace + [git.now];
    }
    forall i, j | 0 <= i <= j <= |ops| && AllSparing(ops, trace, i, j) ensures Preserves(trace[i].branches, trace[j].branches) {
      StretchPreserves(trace, i, j);
    }
    forall i, j | 0 <= i <= j <= |ops| && AllAnswerable(ops, trace, i, j) ensures NothingLost(trace[i], trace[j]) {
      StretchLosesNothing(ops, trace, i, j);
    }
  }

  // ---- where the claim stops ---------------------------------------------------------------------------------

  /** A checkout finalized and then removed leaves its work on a branch exactly when its head was on
      one: on a detached head the commit is made, and nothing keeps it. */
  lemma RemovedWorkIsSavedIff(s: State, p: string, work: nat)
    requires s.Valid() && p in s.trees && s.trees[p].diff == Some(work) && !Saved(s, work)
    ensures Saved(Without(Finalized(s, p), p), work) <==> s.trees[p].head.On?
  {
    CommittingLosesNothing(s, p);
    var after := Without(Finalized(s, p), p);
    if s.trees[p].head.On? {
      var c :| Kept(Finalized(s, p).branches, c) && c.work == work;
      assert Kept(after.branches, c);
    } else {
      assert after.branches == s.branches;
    }
  }

  /** Deleting a leftover branch is safe exactly when what it holds is within reach without it. */
  lemma DeletingIsSafeIff(branches: Branches, b: string)
    requires b in branches
    ensures Preserves(branches, branches - {b}) <==> Kept(branches - {b}, branches[b])
  {
    if Kept(branches - {b}, branches[b]) {
      forall k | k in branches ensures Kept(branches - {b}, branches[k]) {
        if k != b {
          TipKept(branches - {b}, k);
        }
      }
      TipsAreEnough(branches, branches - {b});
    } else {
      DeletingUnmerged(branches, b);
    }
  }
}
