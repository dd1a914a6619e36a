/** What the build does to branches and worktrees, over a git whose every call may fail
    (src/rein/build_git.py). */
module GitWork {
  import opened Optional
  import opened CommitGraph

  datatype Head = On(branch: string) | Detached(at: Commit)

  /** A checkout: its head, and the work in it that is not committed. */
  datatype Tree = Tree(head: Head, diff: Option<nat>)

  datatype State = State(branches: Branches, trees: map<string, Tree>) {
    ghost predicate Valid() {
      forall p :: p in trees && trees[p].head.On? ==> trees[p].head.branch in branches
    }

    function HeadOf(p: string): Commit
      requires Valid() && p in trees
    {
      match trees[p].head
      case On(b) => branches[b]
      case Detached(at) => at
    }

    /** The head of the checkout moved to a commit; its work stays. */
    function Moved(p: string, c: Commit): State
      requires p in trees
    {
      match trees[p].head
      case On(b) => this.(branches := branches[b := c])
      case Detached(_) => this.(trees := trees[p := Tree(Detached(c), trees[p].diff)])
    }

    function Clean(p: string): State
      requires p in trees
    {
      this.(trees := trees[p := Tree(trees[p].head, None)])
    }
  }

  // ---- nothing lost ---------------------------------------------------------------------------

  /** A commit that records the work is within reach of a branch. */
  ghost predicate Saved(s: State, work: nat) {
    exists c :: Kept(s.branches, c) && c.work == work
  }

  /** The work stands uncommitted in a checkout of a branch. */
  predicate StandsIn(s: State, p: string, work: nat) {
    p in s.trees && s.trees[p].head.On? && s.trees[p].diff == Some(work)
  }

  /** Uncommitted work on a branch is still where it was, or on a branch. */
  ghost predicate WorkKept(before: State, after: State) {
    forall p, work {:trigger StandsIn(before, p, work)} :: StandsIn(before, p, work) ==> StandsIn(after, p, work) || Saved(after, work)
  }

  ghost predicate NothingLost(before: State, after: State) {
    Preserves(before.branches, after.branches) && WorkKept(before, after)
  }

  lemma SavedStays(before: State, after: State, work: nat)
    requires Preserves(before.branches, after.branches) && Saved(before, work)
    ensures Saved(after, work)
  {
    var c :| Kept(before.branches, c) && c.work == work;
    assert Kept(after.branches, c);
  }

  lemma NothingLostThrough(a: State, b: State, c: State)
    requires NothingLost(a, b) && NothingLost(b, c)
    ensures NothingLost(a, c)
  {
    PreservesThrough(a.branches, b.branches, c.branches);
    forall p, work | StandsIn(a, p, work) ensures StandsIn(c, p, work) || Saved(c, work) {
      if !StandsIn(b, p, work) {
        SavedStays(b, c, work);
      }
    }
  }

  // ---- what each call of git leaves ------------------------------------------------------------

  /** The outstanding work committed on the head. */
  function Committed(s: State, p: string): State
    requires s.Valid() && p in s.trees && s.trees[p].diff.Some?
  {
    s.Moved(p, Commit([s.HeadOf(p)], s.trees[p].diff.value)).Clean(p)
  }

  lemma CommittingLosesNothing(s: State, p: string)
    requires s.Valid() && p in s.trees && s.trees[p].diff.Some?
    ensures Committed(s, p).Valid() && NothingLost(s, Committed(s, p))
    ensures s.trees[p].head.On? ==> Saved(Committed(s, p), s.trees[p].diff.value)
  {
    var after, c := Committed(s, p), Commit([s.HeadOf(p)], s.trees[p].diff.value);
    if s.trees[p].head.On? {
      ReachesParent(c, 0);
      MovingForward(s.branches, s.trees[p].head.branch, c);
      TipKept(after.branches, s.trees[p].head.branch);
    }
  }

  function Without(s: State, p: string): State {
    s.(trees := s.trees - {p})
  }

  lemma RemovingCleanLosesNothing(s: State, p: string)
    requires s.Valid() && (p in s.trees ==> s.trees[p].diff.None?)
    ensures Without(s, p).Valid() && NothingLost(s, Without(s, p))
  {
  }

  function Follow(head: Head, b: string, name: string): Head {
    if head == On(b) then On(name) else head
  }

  /** The branch under another name, and the checkouts of it with it. */
  function RenamedIn(s: State, b: string, name: string): State
    requires b in s.branches
  {
    State(Renamed(s.branches, b, name), map p | p in s.trees :: Tree(Follow(s.trees[p].head, b, name), s.trees[p].diff))
  }

  lemma RenamingLosesNothing(s: State, b: string, name: string)
    requires s.Valid() && b in s.branches && name !in s.branches
    ensures RenamedIn(s, b, name).Valid() && NothingLost(s, RenamedIn(s, b, name))
  {
    Renaming(s.branches, b, name);
  }

  lemma MovingForwardLosesNothing(s: State, p: string, c: Commit)
    requires s.Valid() && p in s.trees && Reachable(c, s.HeadOf(p))
    ensures s.Moved(p, c).Valid() && NothingLost(s, s.Moved(p, c))
  {
    if s.trees[p].head.On? {
      MovingForward(s.branches, s.trees[p].head.branch, c);
    }
  }

  class Git {
    var now: State

    /** Whether every call that can go through does, and between which commits a merge conflicts. */
    const answers: bool
    const conflicts: (Commit, Commit) -> bool

    /** A merge is made of the two, and it conflicts. */
    predicate Conflicting(head: Commit, tip: Commit) {
      !Reachable(head, tip) && !Reachable(tip, head) && conflicts(head, tip)
    }

    ghost predicate Valid()
      reads this
    {
      now.Valid()
    }

    constructor (start: State, answers: bool, conflicts: (Commit, Commit) -> bool)
      requires start.Valid()
      ensures Valid() && now == start && this.answers == answers && this.conflicts == conflicts
    {
      this.now, this.answers, this.conflicts := start, answers, conflicts;
    }

    /** Whether a call that could go through does: the ghost result of each says when it did not. */
    method Luck() returns (ok: bool, ghost failed: bool)
      ensures ok == !failed && (answers ==> ok)
    {
      ok := *;
      ok := ok || answers;
      failed := !ok;
    }

    method RevParse(name: string) returns (found: bool, ghost failed: bool)
      ensures found == (name in now.branches && !failed)
      ensures answers ==> !failed
    {
      found, failed := Luck();
      found := found && name in now.branches;
    }

    method Status(p: string) returns (ok: bool, clean: bool, ghost failed: bool)
      ensures ok == (p in now.trees && !failed)
      ensures answers ==> !failed
      ensures ok ==> clean == now.trees[p].diff.None?
    {
      ok, failed := Luck();
      ok := ok && p in now.trees;
      clean := ok && now.trees[p].diff.None?;
    }

    method AddAndCommit(p: string) returns (ok: bool, ghost failed: bool)
      requires Valid() && p in now.trees && now.trees[p].diff.Some?
      modifies this
      ensures Valid() && ok == !failed && now == if ok then Committed(old(now), p) else old(now)
      ensures answers ==> !failed
    {
      ok, failed := Luck();
      CommittingLosesNothing(now, p);
      if ok {
        now := Committed(now, p);
      }
    }

    method RemoveWorktree(p: string) returns (ok: bool, ghost failed: bool)
      requires Valid()
      modifies this
      ensures Valid() && ok == (p in old(now).trees && !failed) && now == if ok then Without(old(now), p) else old(now)
      ensures answers ==> !failed
    {
      ok, failed := Luck();
      ok := ok && p in now.trees;
      if ok {
        now := Without(now, p);
      }
    }

    method AddWorktree(b: string, p: string, target: string) returns (ok: bool, ghost failed: bool)
      requires Valid()
      modifies this
      ensures Valid()
      ensures ok == (b !in old(now).branches && p !in old(now).trees && target in old(now).branches && !failed)
      ensures answers ==> !failed
      ensures ok ==> now == State(old(now).branches[b := old(now).branches[target]], old(now).trees[p := Tree(On(b), None)])
      ensures !ok ==> now == old(now)
    {
      ok, failed := Luck();
      ok := ok && b !in now.branches && p !in now.trees && target in now.branches;
      if ok {
        now := State(now.branches[b := now.branches[target]], now.trees[p := Tree(On(b), None)]);
      }
    }

    /** `rev-list -n 1 b --not target`: is there a commit of b that the target does not have? */
    method RevList(b: string, target: string) returns (ok: bool, none: bool, ghost failed: bool)
      ensures ok == (b in now.branches && target in now.branches && !failed)
      ensures answers ==> !failed
      ensures ok ==> none == Reachable(now.branches[target], now.branches[b])
    {
      ok, failed := Luck();
      ok := ok && b in now.branches && target in now.branches;
      none := ok && Reachable(now.branches[target], now.branches[b]);
    }

    method RenameBranch(b: string, name: string) returns (ok: bool, ghost failed: bool)
      requires Valid()
      modifies this
      ensures Valid() && ok == (b in old(now).branches && name !in old(now).branches && !failed)
      ensures answers ==> !failed
      ensures ok ==> now == RenamedIn(old(now), b, name)
      ensures !ok ==> now == old(now)
    {
      ok, failed := Luck();
      ok := ok && b in now.branches && name !in now.branches;
      if ok {
        now := RenamedIn(now, b, name);
      }
    }

    /** Refused while a checkout is on it. */
    method DeleteBranch(b: string) returns (ok: bool, ghost failed: bool)
      requires Valid()
      modifies this
      ensures Valid()
      ensures ok == (b in old(now).branches && !failed && forall p :: p in old(now).trees ==> old(now).trees[p].head != On(b))
      ensures answers ==> !failed
      ensures ok ==> now == old(now).(branches := old(now).branches - {b})
      ensures !ok ==> now == old(now)
    {
      ok, failed := Luck();
      ok := ok && b in now.branches && forall p :: p in now.trees ==> now.trees[p].head != On(b);
      if ok {
        now := now.(branches := now.branches - {b});
      }
    }

    method CreateBranch(name: string, p: string) returns (ok: bool, ghost failed: bool)
      requires Valid()
      modifies this
      ensures Valid() && ok == (p in old(now).trees && name !in old(now).branches && !failed)
      ensures answers ==> !failed
      ensures ok ==> now == old(now).(branches := old(now).branches[name := old(now).HeadOf(p)])
      ensures !ok ==> now == old(now)
    {
      ok, failed := Luck();
      ok := ok && p in now.trees && name !in now.branches;
      if ok {
        now := now.(branches := now.branches[name := now.HeadOf(p)]);
      }
    }

    /** A merge that conflicts or fails otherwise is aborted, and leaves the checkout as it was. */
    method Merge(p: string, b: string, fastForward: bool) returns (ok: bool, ghost work: nat, ghost failed: bool)
      requires Valid()
      modifies this
      ensures Valid() && ok == (p in old(now).trees && b in old(now).branches && !failed)
      ensures answers && p in old(now).trees && b in old(now).branches ==>
                (failed <==> Conflicting(old(now).HeadOf(p), old(now).branches[b]))
      ensures ok ==> now == old(now).Moved(p, MergedHead(old(now).HeadOf(p), old(now).branches[b], fastForward, work))
      ensures !ok ==> now == old(now)
    {
      ok, failed := Luck();
      if p in now.trees && b in now.branches && Conflicting(now.HeadOf(p), now.branches[b]) {
        ok, failed := false, true;
      }
      ok := ok && p in now.trees && b in now.branches;
      var made: nat := *;
      work := made;
      if ok {
        now := now.Moved(p, MergedHead(now.HeadOf(p), now.branches[b], fastForward, made));
      }
    }

    method ResetKeep(p: string, c: Commit) returns (ok: bool, ghost failed: bool)
      requires Valid()
      modifies this
      ensures Valid() && ok == (p in old(now).trees && !failed)
      ensures answers ==> !failed
      ensures ok ==> now == old(now).Moved(p, c)
      ensures !ok ==> now == old(now)
    {
      ok, failed := Luck();
      ok := ok && p in now.trees;
      if ok {
        now := now.Moved(p, c);
      }
    }
  }
}
