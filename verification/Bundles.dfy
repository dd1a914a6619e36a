/** Several sub-issues of one issue in one launch (src/rein/dag.py), and a batch of launches
    (src/rein/build_loop.py). */
module Bundles {
  import opened Ids
  import opened Scopes
  import opened TaskGraph
  import opened Frontier

  /** `bundleable` returns no reason to launch it alone. */
  predicate MayShare(t: Task) {
    && t.entry.byAgent
    && !t.entry.irreversible && t.entry.attemptMax == 0
    && !t.entry.operates
    && !t.entry.hasPreconditions
    && t.entry.unbundled == ""
  }

  predicate Carries(members: seq<Task>, x: Id) {
    exists i :: 0 <= i < |members| && members[i].id == x
  }

  predicate IsDone(g: Graph, x: Id) {
    x in g.byId && g.byId[x].status == Done
  }

  /** The sub-issue cannot join: the bundle ends before it. */
  predicate Ends(g: Graph, members: seq<Task>, taken: set<Id>, t: Task)
    requires members != []
  {
    || t.status != Todo
    || t.id in taken
    || !MayShare(t)
    || (t.entry.env, t.entry.allow) != (members[0].entry.env, members[0].entry.allow)
    || exists k :: 0 <= k < |t.blockedBy| && !Carries(members, t.blockedBy[k]) && !IsDone(g, t.blockedBy[k])
  }

  /** The issue's sub-issues after the lead, in plan order: done ones passed over, up to the first that ends it. */
  function Gather(g: Graph, members: seq<Task>, taken: set<Id>, rest: seq<Task>): (all: seq<Task>)
    requires members != []
    ensures members <= all
    decreases |rest|
  {
    if rest == [] then members
    else if rest[0].status == Done then Gather(g, members, taken, rest[1..])
    else if Ends(g, members, taken, rest[0]) then members
    else Gather(g, members + [rest[0]], taken, rest[1..])
  }

  function Siblings(tasks: seq<Task>, issue: string): (found: seq<Task>)
    ensures forall t :: t in found <==> t in tasks && t.entry.issue == issue
  {
    if tasks == [] then []
    else
      assert tasks == [tasks[0]] + tasks[1..];
      (if tasks[0].entry.issue == issue then [tasks[0]] else []) + Siblings(tasks[1..], issue)
  }

  /** `siblings.index(lead)`. */
  function IndexOf(tasks: seq<Task>, t: Task): (i: nat)
    requires t in tasks
    ensures i < |tasks| && tasks[i] == t && t !in tasks[..i]
  {
    if tasks[0] == t then 0
    else
      assert tasks == [tasks[0]] + tasks[1..];
      var i := IndexOf(tasks[1..], t) + 1;
      assert tasks[..i] == [tasks[0]] + tasks[1..][..i - 1];
      i
  }

  /** The sub-issues of the lead's issue that come after it in the plan. */
  function Following(g: Graph, lead: Task): seq<Task>
    requires lead in g.tasks
  {
    var siblings := Siblings(g.tasks, lead.entry.issue);
    siblings[IndexOf(siblings, lead) + 1..]
  }

  /** The members of the launch `lead` heads: itself alone, or with the siblings that follow it. */
  function Bundle(g: Graph, lead: Task, taken: set<Id>): seq<Task>
    requires lead in g.tasks
  {
    if MayShare(lead) then Gather(g, [lead], taken, Following(g, lead)) else [lead]
  }

  /** The loop of `bundle` over the siblings that follow the lead. */
  method GatherFrom(g: Graph, lead: Task, taken: set<Id>, siblings: seq<Task>, start: nat) returns (members: seq<Task>)
    requires start <= |siblings|
    ensures members == Gather(g, [lead], taken, siblings[start..])
  {
    members := [lead];
    for i := start to |siblings|
      invariant members != []
      invariant Gather(g, members, taken, siblings[i..]) == Gather(g, [lead], taken, siblings[start..])
    {
      var t := siblings[i];
      GatherStep(g, members, taken, siblings, i);
      if t.status == Done {
        continue;
      }
      if Ends(g, members, taken, t) {
        return;
      }
      members := members + [t];
    }
    GatherNothing(g, members, taken, siblings);
  }

  method BundleFor(g: Graph, lead: Task, taken: set<Id>) returns (members: seq<Task>)
    requires lead in g.tasks
    ensures members == Bundle(g, lead, taken)
  {
    if !MayShare(lead) {
      return [lead];
    }
    var siblings := Siblings(g.tasks, lead.entry.issue);
    members := GatherFrom(g, lead, taken, siblings, IndexOf(siblings, lead) + 1);
  }

  lemma GatherNothing(g: Graph, members: seq<Task>, taken: set<Id>, siblings: seq<Task>)
    requires members != []
    ensures Gather(g, members, taken, siblings[|siblings|..]) == members
  {
  }

  lemma GatherStep(g: Graph, members: seq<Task>, taken: set<Id>, siblings: seq<Task>, i: nat)
    requires members != [] && i < |siblings|
    ensures Gather(g, members, taken, siblings[i..]) ==
            if siblings[i].status == Done then Gather(g, members, taken, siblings[i + 1..])
            else if Ends(g, members, taken, siblings[i]) then members
            else Gather(g, members + [siblings[i]], taken, siblings[i + 1..])
  {
    assert siblings[i..][0] == siblings[i] && siblings[i..][1..] == siblings[i + 1..];
  }

  // ---- what a launch carries ---------------------------------------------------------------

  /** The k-th task after the lead could join when it did. */
  ghost predicate Joined(g: Graph, members: seq<Task>, taken: set<Id>, k: nat)
    requires 0 < k < |members|
  {
    !Ends(g, members[..k], taken, members[k])
  }

  /** The launch is members of `rest` in order, with only done tasks between them, up to `used`. */
  ghost predicate Contiguous(members: seq<Task>, from: nat, rest: seq<Task>, used: nat)
    requires from <= |members| && used <= |rest|
    decreases used
  {
    if used == 0 then from == |members|
    else if rest[0].status == Done then Contiguous(members, from, rest[1..], used - 1)
    else from < |members| && members[from] == rest[0] && Contiguous(members, from + 1, rest[1..], used - 1)
  }

  lemma {:induction false} GatherIsContiguous(g: Graph, members: seq<Task>, taken: set<Id>, rest: seq<Task>) returns (used: nat)
    requires members != []
    ensures used <= |rest| && Contiguous(Gather(g, members, taken, rest), |members|, rest, used)
    ensures used < |rest| ==> rest[used].status != Done && Ends(g, Gather(g, members, taken, rest), taken, rest[used])
    ensures forall k :: |members| <= k < |Gather(g, members, taken, rest)| ==>
              Joined(g, Gather(g, members, taken, rest), taken, k)
    decreases |rest|
  {
    var all := Gather(g, members, taken, rest);
    if rest == [] {
      used := 0;
    } else if rest[0].status == Done {
      used := GatherIsContiguous(g, members, taken, rest[1..]);
      assert used < |rest[1..]| ==> rest[1..][used] == rest[used + 1];
      used := used + 1;
    } else if Ends(g, members, taken, rest[0]) {
      used := 0;
    } else {
      used := GatherIsContiguous(g, members + [rest[0]], taken, rest[1..]);
      assert used < |rest[1..]| ==> rest[1..][used] == rest[used + 1];
      used := used + 1;
      assert all[..|members|] == members && all[|members|] == rest[0];
      assert Joined(g, all, taken, |members|);
    }
  }

  lemma {:induction false} ContiguousMembers(members: seq<Task>, from: nat, rest: seq<Task>, used: nat)
    requires from <= |members| && used <= |rest| && Contiguous(members, from, rest, used)
    ensures forall k :: from <= k < |members| ==> members[k] in rest
    decreases used
  {
    if used > 0 {
      assert rest == [rest[0]] + rest[1..];
      if rest[0].status == Done {
        ContiguousMembers(members, from, rest[1..], used - 1);
      } else {
        ContiguousMembers(members, from + 1, rest[1..], used - 1);
      }
    }
  }

  /** A launch is sub-issues of one issue, in plan order after its lead with only done ones between;
      it stops only at one that could not join; each that follows the lead is todo, may share, runs in
      the lead's environment, was not taken, and waits for nothing but done tasks and earlier members. */
  lemma LaunchIsContiguous(g: Graph, lead: Task, taken: set<Id>, members: seq<Task>) returns (used: nat)
    requires lead in g.tasks && MayShare(lead) && members == Bundle(g, lead, taken)
    ensures members != [] && members[0] == lead
    ensures used <= |Following(g, lead)| && Contiguous(members, 1, Following(g, lead), used)
    ensures used < |Following(g, lead)| ==>
              Following(g, lead)[used].status != Done && Ends(g, members, taken, Following(g, lead)[used])
    ensures forall k :: 0 < k < |members| ==> Joined(g, members, taken, k)
    ensures forall k :: 0 < k < |members| ==> members[k] in g.tasks && members[k].entry.issue == lead.entry.issue
  {
    used := GatherIsContiguous(g, [lead], taken, Following(g, lead));
    ContiguousMembers(members, 1, Following(g, lead), used);
    FollowingAreSiblings(g, lead);
    assert [lead] <= members && [lead][0] == members[0];
  }

  /** Who shares a launch: what an agent produces, crosses nothing irreversible, has no attempts priced, is not
      operated, has no preconditions and was not split off; and behind the lead, what is to do, of its issue,
      not taken, of its environment, and waits only for what is done or launched with it. */
  lemma WhoSharesALaunch(g: Graph, lead: Task, taken: set<Id>, members: seq<Task>, k: nat)
    requires lead in g.tasks && members == Bundle(g, lead, taken) && |members| > 1 && k < |members|
    ensures var t := members[k];
            && members[0] == lead
            && t.entry.byAgent && !t.entry.irreversible && t.entry.attemptMax == 0
            && !t.entry.operates && !t.entry.hasPreconditions && t.entry.unbundled == ""
            && (k > 0 ==>
                  && t.status == Todo && t.id !in taken && t.entry.issue == lead.entry.issue
                  && t.entry.env == lead.entry.env && t.entry.allow == lead.entry.allow
                  && forall d :: d in t.blockedBy ==>
                       (d in g.byId && g.byId[d].status == Done) || exists j :: 0 <= j < k && members[j].id == d)
  {
    var used := LaunchIsContiguous(g, lead, taken, members);
    if k > 0 {
      var t := members[k];
      assert Joined(g, members, taken, k);
      forall d | d in t.blockedBy
        ensures (d in g.byId && g.byId[d].status == Done) || exists j :: 0 <= j < k && members[j].id == d
      {
        var i :| 0 <= i < |t.blockedBy| && t.blockedBy[i] == d;
        if !IsDone(g, d) {
          assert Carries(members[..k], d);
          var j :| 0 <= j < k && members[..k][j].id == d;
          assert members[j].id == d;
        }
      }
    }
  }

  /** And what ends it: the next sibling that is not done is one of which that is not so. */
  lemma WhatEndsALaunch(g: Graph, lead: Task, taken: set<Id>, members: seq<Task>) returns (used: nat)
    requires lead in g.tasks && members == Bundle(g, lead, taken)
    requires lead.entry.byAgent && !lead.entry.irreversible && lead.entry.attemptMax == 0
    requires !lead.entry.operates && !lead.entry.hasPreconditions && lead.entry.unbundled == ""
    ensures used <= |Following(g, lead)| && members != [] && Contiguous(members, 1, Following(g, lead), used)
    ensures used < |Following(g, lead)| ==>
              var t := Following(g, lead)[used];
              || t.status in {InProgress, Blocked, NeedsRevision, AwaitingEvidence}
              || (t.status == Todo &&
                    (|| t.id in taken
                     || !t.entry.byAgent || t.entry.irreversible || t.entry.attemptMax > 0
                     || t.entry.operates || t.entry.hasPreconditions || t.entry.unbundled != ""
                     || t.entry.env != lead.entry.env || t.entry.allow != lead.entry.allow
                     || exists d :: d in t.blockedBy && !(d in g.byId && g.byId[d].status == Done)
                                    && forall j :: 0 <= j < |members| ==> members[j].id != d))
  {
    used := LaunchIsContiguous(g, lead, taken, members);
    if used < |Following(g, lead)| {
      var t := Following(g, lead)[used];
      if k :| 0 <= k < |t.blockedBy| && !Carries(members, t.blockedBy[k]) && !IsDone(g, t.blockedBy[k]) {
        assert t.blockedBy[k] in t.blockedBy;
      }
    }
  }

  lemma {:induction false} SiblingsJoin(a: seq<Task>, b: seq<Task>, issue: string)
    ensures Siblings(a + b, issue) == Siblings(a, issue) + Siblings(b, issue)
  {
    if a == [] {
      assert a + b == b;
    } else {
      assert (a + b)[0] == a[0] && (a + b)[1..] == a[1..] + b;
      SiblingsJoin(a[1..], b, issue);
    }
  }

  lemma SiblingsAround(before: seq<Task>, lead: Task, behind: seq<Task>)
    ensures Siblings(before + ([lead] + behind), lead.entry.issue)
            == Siblings(before, lead.entry.issue) + ([lead] + Siblings(behind, lead.entry.issue))
  {
    SiblingsJoin(before, [lead] + behind, lead.entry.issue);
    SiblingsJoin([lead], behind, lead.entry.issue);
    assert [lead][1..] == [];
  }

  lemma BehindFirst(all: seq<Task>, first: seq<Task>, lead: Task, rest: seq<Task>)
    requires all == first + ([lead] + rest) && lead !in first
    ensures lead in all && all[IndexOf(all, lead) + 1..] == rest
  {
    IndexBehind(first, lead, rest);
    assert all[|first|] == lead;
  }

  lemma SiblingsOfPlan(g: Graph, i: nat)
    requires i < |g.tasks|
    ensures var issue := g.tasks[i].entry.issue;
            Siblings(g.tasks, issue) == Siblings(g.tasks[..i], issue) + ([g.tasks[i]] + Siblings(g.tasks[i + 1..], issue))
  {
    assert g.tasks == g.tasks[..i] + ([g.tasks[i]] + g.tasks[i + 1..]);
    SiblingsAround(g.tasks[..i], g.tasks[i], g.tasks[i + 1..]);
  }

  /** What follows the lead are the tasks of its issue that stand behind it in the plan, in the plan's order. */
  lemma FollowingInOrder(g: Graph, i: nat)
    requires g.Valid() && i < |g.tasks|
    ensures Following(g, g.tasks[i]) == Siblings(g.tasks[i + 1..], g.tasks[i].entry.issue)
  {
    var issue := g.tasks[i].entry.issue;
    NotBefore(g, i);
    SiblingsOfPlan(g, i);
    BehindFirst(Siblings(g.tasks, issue), Siblings(g.tasks[..i], issue), g.tasks[i], Siblings(g.tasks[i + 1..], issue));
  }

  lemma NotBefore(g: Graph, i: nat)
    requires g.Valid() && i < |g.tasks|
    ensures g.tasks[i] !in Siblings(g.tasks[..i], g.tasks[i].entry.issue)
  {
    forall k | 0 <= k < i ensures g.tasks[..i][k] != g.tasks[i] {
      assert g.tasks[k].id != g.tasks[i].id;
    }
  }

  lemma {:induction false} IndexBehind(first: seq<Task>, lead: Task, rest: seq<Task>)
    requires lead !in first
    ensures IndexOf(first + ([lead] + rest), lead) == |first|
  {
    if first != [] {
      assert (first + ([lead] + rest))[1..] == first[1..] + ([lead] + rest);
      IndexBehind(first[1..], lead, rest);
    }
  }

  lemma FollowingAreSiblings(g: Graph, lead: Task)
    requires lead in g.tasks
    ensures forall t :: t in Following(g, lead) ==> t in g.tasks && t.entry.issue == lead.entry.issue
  {
    var siblings := Siblings(g.tasks, lead.entry.issue);
    assert forall t :: t in siblings[IndexOf(siblings, lead) + 1..] ==> t in siblings;
  }

  // ---- blockers of the launch --------------------------------------------------------------

  function AllBlockers(members: seq<Task>): seq<Id> {
    if members == [] then [] else AllBlockers(members[..|members| - 1]) + members[|members| - 1].blockedBy
  }

  function NotCarried(members: seq<Task>, deps: seq<Id>): seq<Id> {
    if deps == [] then []
    else NotCarried(members, deps[..|deps| - 1]) + if Carries(members, deps[|deps| - 1]) then [] else [deps[|deps| - 1]]
  }

  /** `blocked_by` of the launch: each member's blockers, once, without the members themselves. */
  function MergedBlockers(members: seq<Task>): seq<Id> {
    NotCarried(members, FirstSeen(AllBlockers(members)))
  }

  lemma {:induction false} AllBlockersHold(members: seq<Task>, d: Id)
    ensures d in AllBlockers(members) <==> exists k :: 0 <= k < |members| && d in members[k].blockedBy
  {
    if members != [] {
      var rest, last := members[..|members| - 1], members[|members| - 1];
      assert members == rest + [last];
      AllBlockersHold(rest, d);
    }
  }

  lemma {:induction false} NotCarriedHolds(members: seq<Task>, deps: seq<Id>, d: Id)
    ensures d in NotCarried(members, deps) <==> d in deps && !Carries(members, d)
  {
    if deps != [] {
      var rest, last := deps[..|deps| - 1], deps[|deps| - 1];
      assert deps == rest + [last];
      NotCarriedHolds(members, rest, d);
    }
  }

  /** What a launch waits for is exactly what a member waits for and the launch does not carry. */
  lemma MergedBlockersHold(members: seq<Task>, d: Id)
    ensures d in MergedBlockers(members) <==> !Carries(members, d) && exists k :: 0 <= k < |members| && d in members[k].blockedBy
  {
    AllBlockersHold(members, d);
    FirstSeenHolds(AllBlockers(members), d);
    NotCarriedHolds(members, FirstSeen(AllBlockers(members)), d);
  }

  /** A task that could join waits for nothing open outside the launch. */
  lemma JoinedWaitsInside(g: Graph, members: seq<Task>, taken: set<Id>, k: nat, d: Id)
    requires 0 < k < |members| && Joined(g, members, taken, k)
    requires d in members[k].blockedBy && !Carries(members, d)
    ensures IsDone(g, d)
  {
    var j :| 0 <= j < |members[k].blockedBy| && members[k].blockedBy[j] == d;
    assert !Carries(members[..k], d);
  }

  /** Led by a task that may start, a launch waits for nothing that is not done. */
  lemma LaunchMayStart(g: Graph, lead: Task, taken: set<Id>, members: seq<Task>, d: Id)
    requires lead in g.tasks && CanStart(g, lead) && members == Bundle(g, lead, taken)
    requires d in MergedBlockers(members)
    ensures IsDone(g, d)
  {
    MergedBlockersHold(members, d);
    var k :| 0 <= k < |members| && d in members[k].blockedBy;
    if MayShare(lead) {
      var used := LaunchIsContiguous(g, lead, taken, members);
    }
    if k > 0 {
      JoinedWaitsInside(g, members, taken, k, d);
    }
  }

  // ---- a batch -----------------------------------------------------------------------------

  function MemberIds(members: seq<Task>): set<Id> {
    set i | 0 <= i < |members| :: members[i].id
  }

  ghost predicate Apart(launches: seq<seq<Task>>) {
    forall m, n :: 0 <= m < n < |launches| ==> MemberIds(launches[m]) !! MemberIds(launches[n])
  }

  /** The tasks that the launches carry. */
  function AllTaken(launches: seq<seq<Task>>): set<Id> {
    if launches == [] then {} else AllTaken(launches[..|launches| - 1]) + MemberIds(launches[|launches| - 1])
  }

  /** The launch is what a task of the batch heads beside what was taken before it. */
  ghost predicate LedBeside(g: Graph, tasks: seq<Task>, launch: seq<Task>, taken: set<Id>) {
    && launch != [] && launch[0] in g.tasks && launch[0] in tasks
    && launch[0].id !in taken && launch == Bundle(g, launch[0], taken)
  }

  /** Each launch is led beside the launches before it. */
  ghost predicate LedInTurn(g: Graph, tasks: seq<Task>, launches: seq<seq<Task>>) {
    launches == [] ||
    (LedInTurn(g, tasks, launches[..|launches| - 1])
     && LedBeside(g, tasks, launches[|launches| - 1], AllTaken(launches[..|launches| - 1])))
  }

  lemma {:induction false} LedAt(g: Graph, tasks: seq<Task>, launches: seq<seq<Task>>, n: nat)
    requires LedInTurn(g, tasks, launches) && n < |launches|
    ensures LedBeside(g, tasks, launches[n], AllTaken(launches[..n]))
  {
    var before := launches[..|launches| - 1];
    if n < |before| {
      LedAt(g, tasks, before, n);
      assert before[..n] == launches[..n];
    }
  }

  lemma OneMoreLaunch(g: Graph, tasks: seq<Task>, launches: seq<seq<Task>>, lead: Task)
    requires LedInTurn(g, tasks, launches) && lead in g.tasks && lead in tasks && lead.id !in AllTaken(launches)
    ensures var launch := Bundle(g, lead, AllTaken(launches));
            && LedInTurn(g, tasks, launches + [launch])
            && AllTaken(launches + [launch]) == AllTaken(launches) + MemberIds(launch)
            && lead.id in MemberIds(launch)
  {
    var launch := Bundle(g, lead, AllTaken(launches));
    LaunchAvoidsTaken(g, lead, AllTaken(launches));
    assert (launches + [launch])[..|launches|] == launches;
  }

  /** The n-th launch is led by the task at the n-th of these places, which ascend. */
  predicate LedFrom(tasks: seq<Task>, launches: seq<seq<Task>>, at: seq<nat>) {
    && |at| == |launches|
    && (forall n :: 0 <= n < |at| ==> at[n] < |tasks| && launches[n] != [] && launches[n][0] == tasks[at[n]])
    && (forall m, n :: 0 <= m < n < |at| ==> at[m] < at[n])
  }

  /** The task at k is in a launch that it leads, or that a task before it does. */
  predicate LaunchedBy(tasks: seq<Task>, launches: seq<seq<Task>>, at: seq<nat>, k: nat)
    requires k < |tasks| && |at| == |launches|
  {
    exists n :: 0 <= n < |at| && at[n] <= k && tasks[k].id in MemberIds(launches[n])
  }

  /** The leads stand in the order of the tasks, and no task is left behind. */
  predicate EachLaunched(tasks: seq<Task>, launches: seq<seq<Task>>, at: seq<nat>) {
    LedFrom(tasks, launches, at) && forall k :: 0 <= k < |tasks| ==> LaunchedBy(tasks, launches, at, k)
  }

  /** The launches of a batch: each task, in order, with its siblings, unless a launch already took it. */
  function Launches(g: Graph, tasks: seq<Task>): seq<seq<Task>>
    requires forall t :: t in tasks ==> t in g.tasks
  {
    if tasks == [] then []
    else
      var before, last := Launches(g, tasks[..|tasks| - 1]), tasks[|tasks| - 1];
      if last.id in AllTaken(before) then before else before + [Bundle(g, last, AllTaken(before))]
  }

  lemma OneMoreLead(tasks: seq<Task>, launches: seq<seq<Task>>, at: seq<nat>, launch: seq<Task>)
    requires tasks != []
    requires launch != [] && launch[0] == tasks[|tasks| - 1] && launch[0].id in MemberIds(launch)
    requires EachLaunched(tasks[..|tasks| - 1], launches, at)
    ensures EachLaunched(tasks, launches + [launch], at + [|tasks| - 1])
  {
    var i, more, places := |tasks| - 1, launches + [launch], at + [|tasks| - 1];
    forall k | 0 <= k < |tasks| ensures LaunchedBy(tasks, more, places, k) {
      if k < i {
        assert LaunchedBy(tasks[..i], launches, at, k);
        var n :| 0 <= n < |at| && at[n] <= k && tasks[k].id in MemberIds(launches[n]);
        assert places[n] == at[n] && more[n] == launches[n];
      } else {
        assert places[|at|] == i && more[|at|] == launch;
      }
    }
  }

  lemma AlreadyCarried(tasks: seq<Task>, launches: seq<seq<Task>>, at: seq<nat>)
    requires tasks != [] && tasks[|tasks| - 1].id in AllTaken(launches)
    requires EachLaunched(tasks[..|tasks| - 1], launches, at)
    ensures EachLaunched(tasks, launches, at)
  {
    var i := |tasks| - 1;
    var n := TakenSomewhere(launches, tasks[i].id);
    assert at[n] <= i;
    forall k | 0 <= k < i ensures LaunchedBy(tasks, launches, at, k) {
      assert LaunchedBy(tasks[..i], launches, at, k);
    }
  }

  lemma LaunchesSnoc(g: Graph, tasks: seq<Task>, n: nat)
    requires n < |tasks| && forall t :: t in tasks ==> t in g.tasks
    ensures var before := Launches(g, tasks[..n]);
            Launches(g, tasks[..n + 1])
            == if tasks[n].id in AllTaken(before) then before else before + [Bundle(g, tasks[n], AllTaken(before))]
  {
    assert tasks[..n + 1][..n] == tasks[..n];
  }

  lemma {:induction false} LaunchesLedInTurn(g: Graph, tasks: seq<Task>, n: nat)
    requires n <= |tasks| && forall t :: t in tasks ==> t in g.tasks
    ensures LedInTurn(g, tasks, Launches(g, tasks[..n]))
  {
    if n > 0 {
      LaunchesLedInTurn(g, tasks, n - 1);
      LaunchesSnoc(g, tasks, n - 1);
      var before, lead := Launches(g, tasks[..n - 1]), tasks[n - 1];
      assert lead in tasks;
      if lead.id !in AllTaken(before) {
        OneMoreLaunch(g, tasks, before, lead);
      }
    }
  }

  lemma {:induction false} LaunchesInOrder(g: Graph, tasks: seq<Task>) returns (at: seq<nat>)
    requires forall t :: t in tasks ==> t in g.tasks
    ensures EachLaunched(tasks, Launches(g, tasks), at)
  {
    at := [];
    if tasks != [] {
      var rest, last := tasks[..|tasks| - 1], tasks[|tasks| - 1];
      at := LaunchesInOrder(g, rest);
      var before := Launches(g, rest);
      if last.id in AllTaken(before) {
        AlreadyCarried(tasks, before, at);
      } else {
        LaunchAvoidsTaken(g, last, AllTaken(before));
        OneMoreLead(tasks, before, at, Bundle(g, last, AllTaken(before)));
        at := at + [|tasks| - 1];
      }
    }
  }

  /** `_bundled`: each launch is led, beside what was taken before it, by a task of the batch, the leads
      in the batch's order; and every task is in a launch that it leads or that a task before it does. */
  method Batch(g: Graph, tasks: seq<Task>) returns (launches: seq<seq<Task>>, ghost at: seq<nat>)
    requires forall t :: t in tasks ==> t in g.tasks
    ensures LedInTurn(g, tasks, launches) && Apart(launches)
    ensures EachLaunched(tasks, launches, at)
  {
    launches := [];
    var taken: set<Id> := {};
    for i := 0 to |tasks|
      invariant launches == Launches(g, tasks[..i]) && taken == AllTaken(launches)
    {
      var task := tasks[i];
      LaunchesSnoc(g, tasks, i);
      if task.id !in taken {
        var launch := BundleFor(g, task, taken);
        assert (launches + [launch])[..|launches|] == launches;
        launches := launches + [launch];
        taken := taken + MemberIds(launch);
      }
    }
    assert tasks[..|tasks|] == tasks;
    LaunchesLedInTurn(g, tasks, |tasks|);
    LedApart(g, tasks, launches);
    at := LaunchesInOrder(g, tasks);
  }

  lemma {:induction false} TakenSomewhere(launches: seq<seq<Task>>, x: Id) returns (n: nat)
    requires x in AllTaken(launches)
    ensures n < |launches| && x in MemberIds(launches[n])
  {
    n := |launches| - 1;
    if x !in MemberIds(launches[n]) {
      n := TakenSomewhere(launches[..n], x);
    }
  }

  lemma {:induction false} TakenBefore(launches: seq<seq<Task>>, m: nat, n: nat)
    requires m < n <= |launches|
    ensures MemberIds(launches[m]) <= AllTaken(launches[..n])
  {
    assert launches[..n][..n - 1] == launches[..n - 1];
    if m < n - 1 {
      TakenBefore(launches, m, n - 1);
    }
  }

  /** Launches each led beside what was taken share no task. */
  lemma LedApart(g: Graph, tasks: seq<Task>, launches: seq<seq<Task>>)
    requires LedInTurn(g, tasks, launches)
    ensures Apart(launches)
  {
    forall m, n | 0 <= m < n < |launches|
      ensures MemberIds(launches[m]) !! MemberIds(launches[n])
    {
      LedAt(g, tasks, launches, n);
      LaunchAvoidsTaken(g, launches[n][0], AllTaken(launches[..n]));
      TakenBefore(launches, m, n);
    }
  }

  /** A batch of tasks that may start launches nothing that waits for a task not done. */
  lemma BatchMayStart(g: Graph, tasks: seq<Task>, launches: seq<seq<Task>>, n: nat, d: Id)
    requires n < |launches| && LedInTurn(g, tasks, launches)
    requires forall t :: t in tasks ==> t in g.tasks && CanStart(g, t)
    requires d in MergedBlockers(launches[n])
    ensures IsDone(g, d)
  {
    LedAt(g, tasks, launches, n);
    LaunchMayStart(g, launches[n][0], AllTaken(launches[..n]), launches[n], d);
  }

  lemma LaunchAvoidsTaken(g: Graph, lead: Task, taken: set<Id>)
    requires lead in g.tasks && lead.id !in taken
    ensures MemberIds(Bundle(g, lead, taken)) !! taken
    ensures lead.id in MemberIds(Bundle(g, lead, taken)) && Bundle(g, lead, taken)[0] == lead
  {
    var members := Bundle(g, lead, taken);
    if MayShare(lead) {
      var used := LaunchIsContiguous(g, lead, taken, members);
    }
    assert Carries(members, lead.id) by {
      assert members[0].id == lead.id;
    }
    forall k | 0 <= k < |members|
      ensures members[k].id !in taken
    {
      if k > 0 {
        assert Joined(g, members, taken, k);
      }
    }
  }

  // ---- each member's own criteria ----------------------------------------------------------

  const MEMBER_SEP: string := "/"

  function Prefix(member: Id): string {
    member + MEMBER_SEP
  }

  function Named(member: Id, own: seq<Criterion>): (named: seq<Criterion>)
    ensures |named| == |own|
    ensures forall i :: 0 <= i < |own| ==> named[i] == own[i].(id := Prefix(member) + own[i].id)
  {
    seq(|own|, i requires 0 <= i < |own| => own[i].(id := Prefix(member) + own[i].id))
  }

  /** Every member's criteria, each under `<member>/<criterion>`. */
  function MergedCriteria(members: seq<Task>): seq<Criterion> {
    if members == [] then []
    else MergedCriteria(members[..|members| - 1]) + Named(members[|members| - 1].id, members[|members| - 1].entry.acceptance)
  }

  /** `of_member`: the entries under the member's prefix, under their own ids again. */
  function OfMember(entries: seq<Criterion>, member: Id): seq<Criterion> {
    if entries == [] then []
    else
      var last := entries[|entries| - 1];
      OfMember(entries[..|entries| - 1], member) +
      if Prefix(member) <= last.id then [last.(id := last.id[|Prefix(member)|..])] else []
  }

  lemma {:induction false} OfMemberJoin(a: seq<Criterion>, b: seq<Criterion>, member: Id)
    ensures OfMember(a + b, member) == OfMember(a, member) + OfMember(b, member)
  {
    if b == [] {
      assert a + b == a;
    } else {
      var rest := b[..|b| - 1];
      OfMemberJoin(a, rest, member);
      assert (a + b)[..|a + b| - 1] == a + rest;
    }
  }

  lemma {:induction false} OfMemberOwn(member: Id, own: seq<Criterion>)
    ensures OfMember(Named(member, own), member) == own
  {
    if own != [] {
      var rest, last := own[..|own| - 1], own[|own| - 1];
      OfMemberOwn(member, rest);
      assert Named(member, own)[..|own| - 1] == Named(member, rest);
      assert (Prefix(member) + last.id)[|Prefix(member)|..] == last.id;
      assert own == rest + [last];
    }
  }

  /** A criterion of another member whose merged name reads as one of this member's. */
  ghost predicate Mistaken(other: Task, member: Id) {
    exists i :: 0 <= i < |other.entry.acceptance| && Prefix(member) <= Prefix(other.id) + other.entry.acceptance[i].id
  }

  lemma {:induction false} OfMemberOther(other: Id, own: seq<Criterion>, member: Id)
    ensures OfMember(Named(other, own), member) == [] <==>
              forall i :: 0 <= i < |own| ==> !(Prefix(member) <= Prefix(other) + own[i].id)
  {
    if own != [] {
      var rest := own[..|own| - 1];
      OfMemberOther(other, rest, member);
      assert Named(other, own)[..|own| - 1] == Named(other, rest);
      assert own == rest + [own[|own| - 1]];
    }
  }

  ghost predicate NoneMistaken(members: seq<Task>, except: int, me: Id) {
    forall k :: 0 <= k < |members| && k != except ==> !Mistaken(members[k], me)
  }

  lemma NoneMistakenSnoc(members: seq<Task>, except: int, me: Id)
    requires members != []
    ensures NoneMistaken(members, except, me) <==>
              && NoneMistaken(members[..|members| - 1], except, me)
              && (except == |members| - 1 || !Mistaken(members[|members| - 1], me))
  {
    var rest := members[..|members| - 1];
    assert forall k :: 0 <= k < |rest| ==> rest[k] == members[k];
  }

  lemma {:induction false} NothingRecovered(members: seq<Task>, me: Id)
    ensures OfMember(MergedCriteria(members), me) == [] <==> NoneMistaken(members, -1, me)
  {
    if members != [] {
      var rest, last := members[..|members| - 1], members[|members| - 1];
      NothingRecovered(rest, me);
      OfMemberJoin(MergedCriteria(rest), Named(last.id, last.entry.acceptance), me);
      OfMemberOther(last.id, last.entry.acceptance, me);
      NoneMistakenSnoc(members, -1, me);
    }
  }

  /** The member's own, and more exactly when something was mistaken for it. */
  predicate ComesBack(got: seq<Criterion>, own: seq<Criterion>, clean: bool) {
    |got| >= |own| && (clean ==> got == own) && (!clean ==> |got| > |own|)
  }

  lemma MoreComesBack(got: seq<Criterion>, more: seq<Criterion>, own: seq<Criterion>, clean: bool, quiet: bool)
    requires more == [] <==> quiet
    ensures ComesBack(got, own, clean) ==> ComesBack(got + more, own, clean && quiet)
    ensures ComesBack(more + own, own, quiet)
  {
  }

  lemma {:induction false} RecoversOne(members: seq<Task>, m: nat)
    requires m < |members|
    ensures ComesBack(OfMember(MergedCriteria(members), members[m].id), members[m].entry.acceptance, NoneMistaken(members, m, members[m].id))
  {
    var n := |members| - 1;
    var rest, last, me, own := members[..n], members[n], members[m].id, members[m].entry.acceptance;
    var before, named := MergedCriteria(rest), Named(last.id, last.entry.acceptance);
    OfMemberJoin(before, named, me);
    NoneMistakenSnoc(members, m, me);
    if m < n {
      RecoversOne(rest, m);
      OfMemberOther(last.id, last.entry.acceptance, me);
      MoreComesBack(OfMember(before, me), OfMember(named, me), own, NoneMistaken(rest, m, me), !Mistaken(last, me));
    } else {
      OfMemberOwn(me, last.entry.acceptance);
      NothingRecovered(rest, me);
      assert NoneMistaken(rest, m, me) <==> NoneMistaken(rest, -1, me);
      MoreComesBack([], OfMember(before, me), own, true, NoneMistaken(rest, m, me));
    }
  }

  /** `of_member` gives a member its own criteria exactly when no other's can be mistaken for them. */
  lemma RecoveredExactly(members: seq<Task>, m: nat)
    requires m < |members|
    ensures |OfMember(MergedCriteria(members), members[m].id)| >= |members[m].entry.acceptance|
    ensures NoneMistaken(members, m, members[m].id) ==> OfMember(MergedCriteria(members), members[m].id) == members[m].entry.acceptance
    ensures !NoneMistaken(members, m, members[m].id) ==>
              |OfMember(MergedCriteria(members), members[m].id)| > |members[m].entry.acceptance|
  {
    RecoversOne(members, m);
  }

  /** The first separator ends both names. */
  lemma {:induction false} FirstSeparator(a: string, b: string, x: string)
    requires '/' !in a && '/' !in b
    requires a + "/" <= b + "/" + x
    ensures a == b
  {
    var p, q := a + "/", b + "/" + x;
    assert a != [] ==> p[0] == a[0] && a[0] in a;
    assert b != [] ==> q[0] == b[0] && b[0] in b;
    assert p[0] == q[0];
    if a != [] && b != [] {
      assert p[1..] == a[1..] + "/" && q[1..] == b[1..] + "/" + x;
      FirstSeparator(a[1..], b[1..], x);
      assert a == [a[0]] + a[1..] && b == [b[0]] + b[1..];
    }
  }

  /** Ids without the separator cannot be mistaken for one another. */
  lemma NeverMistaken(other: Task, member: Id)
    requires '/' !in other.id && '/' !in member && other.id != member
    ensures !Mistaken(other, member)
  {
    forall i | 0 <= i < |other.entry.acceptance|
      ensures !(Prefix(member) <= Prefix(other.id) + other.entry.acceptance[i].id)
    {
      if Prefix(member) <= Prefix(other.id) + other.entry.acceptance[i].id {
        FirstSeparator(member, other.id, other.entry.acceptance[i].id);
      }
    }
  }

  /** Each member gets back its own criteria, whole and in order. */
  lemma CriteriaComeBack(members: seq<Task>, m: nat)
    requires m < |members|
    requires forall i, j :: 0 <= i < j < |members| ==> members[i].id != members[j].id
    requires forall k :: 0 <= k < |members| ==> '/' !in members[k].id
    ensures OfMember(MergedCriteria(members), members[m].id) == members[m].entry.acceptance
  {
    forall k | 0 <= k < |members| && k != m
      ensures !Mistaken(members[k], members[m].id)
    {
      NeverMistaken(members[k], members[m].id);
    }
    RecoveredExactly(members, m);
  }
}
