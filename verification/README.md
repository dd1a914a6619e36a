# rein, verified

Dafny proofs about the parts of `rein` whose documentation makes claims about every schedule, every
run or every outcome. Each module takes one of them and keeps the branches, edge cases and constants
of the code it models. `dafny verify dfyconfig.toml` checks the whole project.

- **The sequential test and its ledger** (`evals/harness.py`): `FiniteSums` and `Binomials` hold the
  arithmetic; `Draws` counts trials drawn one by one; `FisherTest` the exact test and the verdict;
  `TwoLooks` and `ErrorRate` the claim that two looks at 0.025 keep the whole under 0.05, first by
  counting arrangements, then as a probability at any pass rate; `TrialLedger` the record that survives
  being stopped anywhere; `RecordedError` that the claim is about what the record comes to say.
- **The scheduler** (`src/rein/dag.py`): `Ids`, `TaskGraph`, `TopoOrder`, `Kahn`, `Layers`,
  `CriticalPath`, `Frontier`, `FrontierOrder`, `Reachability`, `Chains`, `Bundles`, and the path
  scopes in `Scopes` and `Covers` (`src/rein/common.py`).
- **The gates** (`src/rein/approve.py`, `src/rein/change_request.py`, `src/rein/revise.py`): `GateLog`
  reads the audit chain backwards and forwards, `GateAuthority` is the document edited in place,
  `GateRuns` what every run keeps.
- **The leaf protocol** (`src/rein/control_plane.py`): `LeafProtocol` is one request, `LeafRuns` every
  interleaving, `LeafServer` the nonces and the store edited in place.
- **Preserved work** (`src/rein/build_git.py`): `CommitGraph`, `GitWork` (a git whose every call may
  fail) and `Preservation`.
- **Blocking findings** (`src/rein/change_review.py`): `ChangeReview` is one reading, `FindingLife` any
  number of them.
- **Cancellation** (`src/rein/common.py`): `Cancellation`.

Code that edits things in place is a class or a method with loops here, proved against functions on
values; the properties of whole runs are proved about those functions.

Where the code and its own documentation differ, the code is modelled:

- `merged` says its scope covers what any member's does. It does exactly when no kept exclude lies
  over a live include of a member (`Scopes.MergedCoversExactly`, `Scopes.CoverageLost`).
- `longest_cover` says its answer does not depend on the order of the patterns. The place it names
  does not; the string does when that place is spelled with and without a trailing slash
  (`Covers.SameExactlyWhenSpelledOnce`).
- `chains` says the tasks are cut. A task is lost that is the only one in the list to wait, and for
  nothing else, for one that is not in it (`Chains.CoversExactly`).
- `change_request.add` looks for the gate before its transaction and not in it, so a mandate approval
  in between can leave an open request against a gate that is gone (`GateRuns.AppendHoldsIff`,
  `GateRuns.GateGoneBeforeAppend`). `resolve_addressed` calls that the state `add` refuses to create.
- `live_disputes` says a dispute retires the moment somebody edits the code it was about, which revives
  the finding. It is matched against the blobs the finding recorded, so no edit retires it
  (`FindingLife.EditsRetireNoDispute`, `FindingLife.LapsesExactlyWhenUnreadable`), and a disputed finding
  comes back exactly when a reviewer states it again, at whatever severity
  (`FindingLife.DisputedComesBackIff`, `FindingLife.EditedAndForgotten`).
- `resolution_of` says a finding whose code is still there is refused. A `git show` that fails or times
  out is taken for a file that is not there, so it closes what it could not see
  (`FindingLife.ClosedThoughThere`, `FindingLife.ResolvedByASilentGit`).
- A request is said to be re-read and re-applied when somebody else commits first. One that only
  appends never is, and names the cycle it was read in: overtaken by the next cycle it lands in that
  one's chain under the old name (`LeafRuns.EveryRunIsSequential`, `LeafRuns.LateDecision`).
- A message captured from a log "cannot be re-sent": the nonces live as long as the server, the key and
  the tokens longer (`LeafRuns.EachPairAcceptedOnce`, `LeafRuns.AcceptedAgainAfterRestart`).
- A roll back is said to leave no gate approved on a pending one. Its list is worked out on one reading
  and applied to a later one (`GateRuns.StaleRollBackHoldsIff`, `GateRuns.AcceptedMeanwhile`).
- `validate_anchor` counts newlines and one, `_anchored_lines` counts lines: an anchor on the line
  after a final newline is accepted and can never be re-read (`FindingLife.AcceptedBeyondTheEnd`).
- `cancel` says it kills every launch the token holds, and `run` that an interrupt kills the launch. One
  that comes in a handler before its kill does not, and the token lets go of the launch
  (`Cancellation.NoLaunchEscapes`, `Cancellation.DroppedEscapes`).
- "The branch is the complete record" of a worktree holds when its head is on a branch
  (`Preservation.RemovedWorkIsSavedIff`).

## Model

| member | source | states |
|---|---|---|
| `TwoLooks.TwoLooksKeepTheError` | evals/harness.py:47-49 | for every n and every number t of passes in 4n trials, the outcomes for which `judge` says `holds` at the first look or at the pooled second one are at most twice ALPHA of all C(4n, t) arrangements |
| `TwoLooks.FirstLookBound` | evals/harness.py:47-49 | the first look alone accounts for at most ALPHA of them, whatever the second run brings |
| `TwoLooks.PooledLookBound` | evals/harness.py:47-49 | so does the pooled look, summed over every way its passes fall into the two runs |
| `TwoLooks.LookBound` | evals/harness.py:297-306 | one look at n trials an arm holds for at most ALPHA of the arrangements of any number of passes |
| `ErrorRate.WronglyHeldAtMost` | evals/harness.py:47-49 | as a probability: for a sentence that does nothing, at every common pass rate, `holds` is recorded with probability at most 0.05 |
| `ErrorRate.TotalMass` | evals/harness.py:47-49 | the weights used for that are a probability: all outcomes together have mass one |
| `RecordedError.RecordedAtMost` | evals/harness.py:47-49 | the same, trial by trial: draw the trials of both arms in order, each passing at one common rate, and let the ledger judge them as it does; the probability that it comes to record `holds` is at most 0.05 |
| `RecordedError.HeldArrangementsAreWays` | evals/harness.py:596-602 | the arrangements counted are exactly the sequences of 4n trials with t passes for which the ledger records `holds` |
| `RecordedError.EveryHoldIsHeld` | evals/harness.py:467-480 | however many runs are made while the verdict is open, when they end in `holds` there are one or two of them, and they are among the counts that the bound is about |
| `RecordedError.RecordedHoldIsHeld` | evals/harness.py:583-602 | so is every record that says `holds` |
| `FisherTest.FisherIsProbability` | evals/harness.py:297-306 | p lies between 0 and 1 |
| `FisherTest.TailCountsDeals` | evals/harness.py:297-306 | its numerator counts the ways to deal all the trials, half of them to `with`, that leave `with` at least as far ahead; its denominator, all the ways |
| `FisherTest.FisherAntitone` | evals/harness.py:297-306 | at a fixed pooled count, one more pass in the `with` arm makes p strictly smaller |
| `FisherTest.FisherOneWhenNeverFailed` | evals/harness.py:297-315 | p is exactly 1 when the arm without the sentence never failed |
| `FisherTest.NotReproducedExactly` | evals/harness.py:309-315 | `not-reproduced` is the verdict exactly then: the branch before it never shadows it |
| `FisherTest.HoldsMeansAhead` | evals/harness.py:309-315 | `holds` means the `with` arm is strictly ahead |
| `FisherTest.HoldsExactly` | evals/harness.py:45-49 | p at most ALPHA is the exact comparison of whole numbers 40 * tail <= C(2n, n) |
| `Binomials.HypergeometricDuality` | evals/harness.py:297-306 | the law behind p read from either side: splitting the passes over the arms, or marking one arm's trials among them |
| `Binomials.VandermondeOver` | evals/harness.py:297-306 | the terms of p over every split add up to the denominator |
| `TrialLedger.Ledger.Open` | evals/harness.py:467-533 | the record of this key is taken up with exactly what was taken under it; another key's, whatever it holds, is replaced; a decided one is refused, and only that |
| `TrialLedger.Ledger.Add` | evals/harness.py:538-550 | a trial is counted, in its own arm, exactly when its digest is the key's for that arm and the key's model alone answered, and on disk exactly when it was also written |
| `TrialLedger.Ledger.RecordAbort` | evals/harness.py:552-554 | an abort is recorded beside the trials, with its arm and number, and takes none away |
| `TrialLedger.Ledger.Close` | evals/harness.py:556-572 | refused while an arm is not complete; else the pending run becomes one run with the counts of its trials, and nothing is pending |
| `TrialLedger.Ledger.Write` | evals/harness.py:583-613 | the record on disk is the new one whole or the old one whole, and sound either way |
| `TrialLedger.Fill` | evals/harness.py:616-637 | filling an arm takes exactly what the attempts it reached left, in order; it ends with the arm full and every attempt gone through, or behind the first that fails with the arm not full before |
| `TrialLedger.Evaluate` | evals/harness.py:616-637 | one run under a key: what is held grows by what its attempts left, the `with` arm first; refused exactly when decided, and nothing changes; stopped only behind an attempt that fails; closed with both arms full, one run more if that was written |
| `TrialLedger.EvaluateAgain` | evals/harness.py:502-513 | any sequence of runs under one key, each ending wherever it does, is a chain of records each got from the one before by one such run, and the last is sound: nothing taken is dropped or taken twice |
| `TrialLedger.ResumedIsUninterrupted` | evals/harness.py:505-511 | two records without an open run that took the same trials have the same runs and the same verdict, however often either was stopped |
| `TrialLedger.EachRunCountsItsOwnTrials` | evals/harness.py:556-572 | run i counts exactly trials i*n to (i+1)*n of each arm |
| `TrialLedger.OpenOnlyWhileUndecided` | evals/harness.py:583-602 | at most two runs; one is pending only while the verdict is `undecided`, and behind the second it never is |
| `TrialLedger.VerdictIsPooled` | evals/harness.py:596-602 | kept for `judge`, a record's verdict is `undecided` while no run is closed, and else that of one test over every trial the closed runs hold, pooled; after two runs it is decided |
| `TrialLedger.VerdictExactly` | evals/harness.py:309-315 | of any runs: `holds` exactly at p up to 0.025, `not-reproduced` exactly when the arm without never failed, and else `undecided` after one run and `does-not-hold` after more |
| `Kahn.TopologicalOrder` | src/rein/dag.py:190-205 | the loop over indegrees and a re-sorted ready list computes the order `Order(g)` that always extracts the least available id |
| `TopoOrder.OrderIsLeast` | src/rein/dag.py:190-205 | when everything is extracted, no topological order is lexicographically smaller |
| `TopoOrder.FullExactlyWhenAcyclic` | src/rein/dag.py:185-205 | every task is extracted exactly when there is no dependency cycle, and what is extracted is in topological order |
| `TopoOrder.OrderIgnoresListing` | src/rein/dag.py:190-205 | the order does not depend on how the tasks are listed |
| `TopoOrder.DependentsMap` | src/rein/dag.py:207-213 | each task is mapped to one entry for each time something names it as a blocker, in the tasks' order |
| `TopoOrder.DependentsCount` | src/rein/dag.py:207-213 | so a task is counted down once for every blocker it declares |
| `Kahn.CountDown` | src/rein/dag.py:199-204 | the inner loop lowers each child's count by its mentions and reports once each child that reached zero |
| `Kahn.FromTasks` | src/rein/dag.py:160-180 | a graph is accepted only when it is valid and acyclic; each refusal names the fault: the id that occurs twice, the dependency that is unknown or the task's own, or the graph with its cycle |
| `TaskGraph.StuckMeansCycle` | src/rein/dag.py:185-188 | tasks that all wait for one another hold a cycle |
| `Layers.LayerList` | src/rein/dag.py:259-266 | the layers: every task in the one whose index is the length of its longest chain of predecessors, each layer ascending and none empty |
| `Layers.DepthMap` | src/rein/dag.py:261-264 | the depth computed along the order is that length |
| `CriticalPath.CriticalPath` | src/rein/dag.py:268-288 | the path is a longest dependency chain and, read from its end, the least by id among the longest |
| `CriticalPath.LengthMaps` | src/rein/dag.py:268-283 | the lengths and predecessors it is read off: each predecessor the least id among the blockers with the longest chains |
| `CriticalPath.CriticalPathCrossesEveryLayer` | src/rein/dag.py:259-288 | it has as many tasks as there are layers, its i-th in layer i |
| `Frontier.FrontierHolds` | src/rein/dag.py:254-257 | the frontier is exactly the todo tasks whose every blocker is done |
| `Ids.BeforeExactly` | src/rein/dag.py:254-257 | ids ascend as strings do: a proper prefix first, else the smaller character where they first differ |
| `Frontier.FrontierAscends` | src/rein/dag.py:254-257 | in strictly ascending order |
| `Frontier.NeverStuck` | src/rein/dag.py:254-257 | with every task todo or done and not all done, something may start |
| `Frontier.RoundsFollowLayers` | src/rein/dag.py:254-266 | from all todo, finishing the whole frontier each round leaves exactly the first k layers done after k rounds, and the next layer as the frontier |
| `Frontier.LastRoundFinishes` | src/rein/dag.py:254-266 | after as many rounds as layers everything is done |
| `FrontierOrder.FrontierInOrder` | src/rein/dag.py:290-306 | the ordered frontier is the frontier, foundation first, then fan-out, then the critical path, then id |
| `FrontierOrder.ConsumedInOrder` | src/rein/dag.py:290-306 | of any two tasks in it: no foundation task behind one that is none; of one kind, none behind one that is named as a blocker less often; of those, no critical one behind one that is not; and else by ascending id |
| `FrontierOrder.OnlyOneOrder` | src/rein/dag.py:293-306 | those rules leave one order |
| `FrontierOrder.RunsAgree` | src/rein/dag.py:293-306 | two runs over the same tasks schedule identically, however the tasks are listed |
| `Reachability.DependentsClosure` | src/rein/dag.py:221-236 | the worklist finds exactly what waits, directly or not, for a known seed, the seeds left out |
| `Reachability.DependenciesClosure` | src/rein/dag.py:238-252 | and exactly what a seed rests on, with the known seeds themselves |
| `Reachability.Ancestors` | src/rein/approve.py:205-215 | the stack finds exactly what a task rests on, the task left out |
| `Reachability.RippleMirrorsFoundation` | src/rein/dag.py:221-252 | for different tasks, one is in the other's ripple exactly when the other is in its foundation |
| `Reachability.AncestryIsFoundationWithoutSelf` | src/rein/approve.py:205-215 | the ancestors are the dependency closure less the task itself, on every accepted graph |
| `Chains.Chains` | src/rein/dag.py:47-73 | the cut: one maximal path of sole-upstream, sole-downstream links for each task that continues none, in the order listed; it ends on cyclic input too |
| `Chains.LinkExactly` | src/rein/dag.py:50-64 | a link joins a task to the one it waits for when it waits for that alone, once, and no other task in the list does |
| `Chains.EachAtMostOnce` | src/rein/dag.py:47-73 | no task is in two places of the cut |
| `Chains.LinksStayTogether` | src/rein/dag.py:47-73 | no two chains could be joined: a link is never cut |
| `Chains.NeverBack` | src/rein/dag.py:66-71 | the inner walk never meets a task it has taken |
| `Chains.CoversExactly` | src/rein/dag.py:47-73 | every task is in the cut exactly when none is the only task in the list to wait, and for nothing else, for one that is not in it, and no links form a cycle |
| `Chains.CoversEveryAcceptedGraph` | src/rein/dag.py:47-73 | so on a graph that was accepted the cut loses nothing |
| `Chains.StrayExample` | src/rein/dag.py:59-66 | a list of one task whose one blocker is not in it is cut into nothing |
| `Scopes.OutsideScopeHolds` | src/rein/common.py:523-535 | the paths reported are those excluded or, with an include list, not included |
| `Scopes.CoveredExactly` | src/rein/common.py:505-521 | a pattern with or without trailing slashes covers the place it names and what is beneath it, and slashes alone cover nothing |
| `Scopes.MergedAllowsOnlyMembers` | src/rein/dag.py:521-528 | whatever a merged scope covers, some member's scope covers |
| `Scopes.MergedCoversExactly` | src/rein/dag.py:521-528 | it covers all that its members cover exactly when no exclude it keeps lies over an include of a member whose own excludes do not |
| `Scopes.CoverageLost` | src/rein/dag.py:521-528 | one member leaving out what another includes a part of: that part is lost, for any names |
| `Scopes.CoverageLostExample` | src/rein/dag.py:521-528 | for example `src` without `src/x`, beside `src/x/y` |
| `Scopes.KeptExclude` | src/rein/dag.py:524-528 | an exclude is kept exactly when it is some member's and no member's scope reaches it |
| `Covers.FindLongestCover` | src/rein/common.py:538-549 | the loop keeps the first of the longest covering patterns |
| `Covers.LongestCoverHolds` | src/rein/common.py:538-549 | there is an answer exactly when a pattern covers the path, and none that does is longer |
| `Covers.ExactWins` | src/rein/common.py:541-543 | an exact match wins over any prefix |
| `Covers.OrderDoesNotMatter` | src/rein/common.py:541-543 | whatever the order of the patterns, the answer names the same place |
| `Covers.SameExactlyWhenSpelledOnce` | src/rein/common.py:541-549 | it is the same string in every order of the patterns exactly when the most specific place is not spelled twice among them |
| `Covers.FirstSpellingWins` | src/rein/common.py:538-549 | spelled with and without its slash, the first spelling is the answer |
| `Bundles.BundleFor` | src/rein/dag.py:473-508 | the loop over the siblings gathers exactly the members of `Bundle` |
| `Bundles.LaunchIsContiguous` | src/rein/dag.py:473-508 | a launch is sub-issues of one issue in plan order after its lead with only done ones between; each could join when it did, and the first left out could not |
| `Bundles.WhoSharesALaunch` | src/rein/dag.py:451-503 | what is launched with others is an agent's, crosses nothing irreversible, has no attempts priced, is not operated, has no preconditions and was not split; behind the lead it is to do, not taken, of the lead's issue and environment, and waits only for done tasks and earlier members |
| `Bundles.WhatEndsALaunch` | src/rein/dag.py:488-499 | and the next sibling that is not done, if there is one, is one of which some of that is not so |
| `Bundles.FollowingInOrder` | src/rein/dag.py:484-487 | what may follow the lead are the tasks of its issue behind it in the plan, in the plan's order |
| `Bundles.LaunchMayStart` | src/rein/dag.py:473-508 | with its lead on the frontier a launch waits for nothing that is not done |
| `Bundles.MergedBlockersHold` | src/rein/dag.py:511-543 | a launch waits for exactly what its members wait for and does not carry |
| `Bundles.LaunchAvoidsTaken` | src/rein/dag.py:473-508 | a launch holds nothing that was taken |
| `Bundles.Batch` | src/rein/build_loop.py:4795-4809 | each launch of a batch is what its lead heads beside what the launches before it took; the leads stand in the order of the tasks, no two launches share a task, and each task of the batch is in a launch that it leads or that a task before it does |
| `Bundles.BatchMayStart` | src/rein/build_loop.py:4795-4809 | a batch of tasks that may start launches nothing that waits for a task not done |
| `Bundles.RecoveredExactly` | src/rein/dag.py:546-553 | a member gets back its own criteria exactly when no other member's criteria carry its prefix |
| `Bundles.NeverMistaken` | src/rein/dag.py:446-448 | ids without the separator cannot be mistaken for one another |
| `Bundles.CriteriaComeBack` | src/rein/dag.py:546-553 | so each member gets back its own, whole and in order |
| `GateLog.WithdrawnApproval` | src/rein/approve.py:932-972 | the backward walk finds exactly the approval that the forward history of the gate holds withdrawn and unanswered |
| `GateLog.HistoryIsVouched` | src/rein/approve.py:910-915 | what stands confirmed or withdrawn in a well-formed chain, a person confirmed under that id and digest |
| `GateLog.AnsweredAtMostOnce` | src/rein/approve.py:937-939 | between two carries of one gate a roll back withdrew it again |
| `GateLog.AnsweredByMandate` | src/rein/approve.py:937-939 | what was withdrawn before a mandate approval is never carried after it, whatever else follows: only a later roll back makes a gate wait again |
| `GateAuthority.Cycle.CarriedCrossings` | src/rein/approve.py:898-924 | the crossings carried are those whose withdrawn digest is the plan's, with the approval and digest they carry |
| `GateAuthority.Cycle.ResolveAddressed` | src/rein/change_request.py:210-235 | exactly the addressed requests against the covered gates are resolved, and named |
| `GateAuthority.Cycle.Approve` | src/rein/approve.py:1077-1253 | an approval is recorded exactly when the gate exists, is pending, has no pending upstream and no open request in its way; it writes exactly the gates, requests, events and freeze of `AfterApprove` |
| `GateAuthority.Cycle.RollBack` | src/rein/revise.py:229-312 | of any document seen: every gate that one held approved at or downstream of the target is pending in the one it is applied to, the event names them, and rolling back a mandate seen frozen thaws the plan |
| `GateAuthority.Cycle.Add` | src/rein/change_request.py:78-128 | a request is recorded exactly when it has a target, a reason and a gate in the document seen before; open, with its event, in the document as it then stands |
| `GateAuthority.Cycle.Address` | src/rein/change_request.py:170-207 | an open request is addressed with its note; one without a note, unknown or not open is refused |
| `GateRuns.EveryRunIsSound` | src/rein/approve.py:122-131 | every run of the verbs keeps all of it: the fan of gates, the requests, the chain and the freeze |
| `GateRuns.AuthorityHolds` | src/rein/approve.py:122-131 | no gate stands approved on a pending one; the mandate leaves exactly its two ends and its crossings; every unresolved request stands against a gate the cycle has |
| `GateRuns.ApprovedExactly` | src/rein/approve.py:594-616 | an approval changes anything exactly when its gate is there and pending, what it stands behind is approved, no request it answers for is open, and all else is clear |
| `GateRuns.OpenHoldsShut` | src/rein/approve.py:594-616 | an open request holds its own gate shut; and the mandate, when it is against a crossing the plan no longer has |
| `GateRuns.WhatApprovalResolves` | src/rein/approve.py:1205-1214 | a recorded approval resolves the addressed requests against its gate, and a mandate's those against the crossings it removes; every other request is as it was |
| `GateRuns.WhatApprovalRecords` | src/rein/approve.py:1130-1160 | approving a crossing records the plan's digest for it, in the gate and in the chain; that gate alone changes |
| `GateRuns.WhatIsRolledBack` | src/rein/revise.py:74-83 | a roll back leaves its target and the acceptance pending, everything when it is the mandate's, and every other gate as it was |
| `GateRuns.CarriesAreVouchedFor` | src/rein/approve.py:898-924 | every `gate_carried` names the id and digest of an earlier approval of the same gate by hand, and no withdrawal is answered twice |
| `GateRuns.DocumentMatchesChain` | src/rein/approve.py:910-915 | a gate is approved in the document exactly when the chain says it stands confirmed, by the approval the receipt leads back to |
| `GateRuns.CarriedExactlyWhenUnmoved` | src/rein/approve.py:903-908 | a crossing rolled back with the mandate, whatever verbs follow in which the mandate is never approved, is open again after the next mandate approval exactly when that plan authorizes the digest its receipt named, and says which approval it carries; else it is pending |
| `GateRuns.StaysWaiting` | src/rein/approve.py:937-939 | until the mandate is approved nothing changes what the chain holds withdrawn of a crossing |
| `GateRuns.ApprovingTheMandate` | src/rein/approve.py:1208-1242 | a mandate approval keeps the invariant while it deletes and creates gates |
| `GateRuns.MandateGates` | src/rein/approve.py:1211-1236 | it leaves the two ends and the plan's crossings: the mandate approved, acceptance pending, a crossing approved exactly when carried |
| `GateRuns.RollingBackKeepsTheChain` | src/rein/revise.py:74-83 | resetting the target and what is downstream leaves no gate approved on a pending one |
| `GateRuns.AppendHoldsIff` | src/rein/change_request.py:98-128 | a request appended after its gate was looked for leaves a sound document exactly when the gate is still there |
| `GateRuns.GateGoneBeforeAppend` | src/rein/change_request.py:98-128 | it may be gone: a run in which a mandate approved over another plan comes between the two |
| `GateRuns.StaleResetHoldsIff` | src/rein/revise.py:229-241 | resetting in one document what was worked out on another leaves no gate approved on a pending one exactly when the list covers every approved gate that rests on one it resets |
| `GateRuns.StaleRollBackHoldsIff` | src/rein/revise.py:229-312 | and the document and chain it leaves keep all of it exactly when moreover it brings back no gate that a standing mandate has not |
| `GateRuns.FreshResetCovers` | src/rein/revise.py:74-83 | worked out on the same document, the list fits |
| `GateRuns.AcceptedMeanwhile` | src/rein/revise.py:340-364 | it may not: a run in which the acceptance is approved between the two readings and stays approved on a pending mandate |
| `GateRuns.SoundExactlyWhenTimely` | src/rein/revise.py:229-312 | over every run in which roll backs and requests act on any earlier reading, all of it is kept at every step exactly when each of them still fits the document it is applied to |
| `GateRuns.TimelyWhenFresh` | src/rein/revise.py:74-83 | which it does when nothing came between |
| `LeafProtocol.AtomicNarrows` | src/rein/control_plane.py:335-424 | a request performed changes no document, or one task: from in-progress, to in-progress, blocked or needs-revision, the token's own if it has one |
| `LeafProtocol.ReportIsRecorded` | src/rein/control_plane.py:251-285 | a report on a task in progress leaves it in progress, blocked or needing revision exactly as it says implemented, blocked or needs-revision, keeps the report, and adds the event of that outcome |
| `LeafProtocol.StatementIsRecorded` | src/rein/control_plane.py:260-264 | what else is served adds its one event and leaves the document |
| `LeafProtocol.RefusedExactly` | src/rein/control_plane.py:335-403 | nothing is recorded exactly without a cycle, for another task than the token's, without what the request needs or with a decision too long, or in a report on a task that is not in progress |
| `LeafProtocol.ScreenExactly` | src/rein/control_plane.py:496-513 | what is admitted is one of five capabilities, granted by the token, with a nonce; the five central ones are refused whatever the token says |
| `LeafProtocol.AppendsAnywhere` | src/rein/control_plane.py:413-422 | a request that writes no document is refused on another only if there is none, and its event differs only in the cycle it names |
| `LeafProtocol.LandsAsAtomicExactly` | src/rein/control_plane.py:413-422 | what lands is the request performed in one piece exactly when it writes the document or was worked out in the cycle it lands in; the document it leaves is in any case |
| `LeafServer.ControlServer.ClaimNonce` | src/rein/control_plane.py:451-463 | true exactly when the pair's key was not seen, which it then is; the step the interleavings take |
| `LeafServer.Store.Commit` | src/rein/store.py:881-947 | a write lands exactly on the document it was worked out on, with its event, or nothing changes; the step the interleavings take |
| `LeafServer.Store.ApplyRequest` | src/rein/control_plane.py:325-332 | with anybody writing between the reading and the commit, what is recorded was worked out on the document last read and lands on the record as it stood, as in one piece but for an append that another cycle overtook; a refusal is one that document warrants, or a race lost five times |
| `LeafProtocol.KeyTellsPairsApart` | src/rein/control_plane.py:451-463 | with token nonces that hold no `:` the key tells the pairs apart |
| `LeafProtocol.SeparatorConfusesPairs` | src/rein/control_plane.py:459 | and without that it does not |
| `LeafRuns.EveryRunIsSequential` | src/rein/control_plane.py:325-424 | every interleaving leaves the document of the landed requests, the central writes and the archiving of cycles performed one after another, so that no update is lost; and their chain exactly when no append in it landed in another cycle than it was worked out in |
| `LeafRuns.OneCycleIsSequential` | src/rein/control_plane.py:325-424 | while the orchestrator writes within one cycle every interleaving is sequential, chain and all |
| `LeafRuns.LateDecision` | src/rein/control_plane.py:416-418 | an append worked out before a cycle is archived and landed after the next is opened stands, under the old cycle's name, in the chain that began with the new one, which no order of the three gives |
| `LeafRuns.ALateNote` | src/rein/control_plane.py:416-418 | for example a note that c-2 overtakes |
| `LeafRuns.RecordedExactlyOnce` | src/rein/control_plane.py:325-424 | a connection is told its request was recorded exactly when it was performed, once |
| `LeafRuns.RecordedReport` | src/rein/control_plane.py:385-422 | a report that a connection of any run is told was recorded left its task, the report and the event so |
| `LeafRuns.StaleAfterFive` | src/rein/store.py:207-226 | in every run a request is answered that its race was lost exactly when its commit was overtaken five times |
| `LeafRuns.EachPairAcceptedOnce` | src/rein/control_plane.py:448-463 | in every run a (token nonce, request nonce) pair accepted twice has a restart of the server between the two |
| `LeafRuns.AcceptedAgainAfterRestart` | src/rein/control_plane.py:133-150 | and with one it is accepted twice: the signing key is on disk, the nonces seen are not |
| `LeafRuns.ANoteTwice` | src/rein/control_plane.py:448 | for example the same note |
| `LeafRuns.OnlyReplaysAreReplays` | src/rein/control_plane.py:448-463 | a request is refused as a replay exactly when its own pair was accepted before by the server as it runs |
| `LeafRuns.OnlyTheEntitledAreAdmitted` | src/rein/control_plane.py:490-515 | what is admitted is granted by its own token and nothing central, whatever the token says |
| `LeafRuns.StepNarrows` | src/rein/control_plane.py:390-411 | a connection's step writes only its own token's task, only from in-progress, never to done or todo |
| `LeafRuns.LeavesLeaveTheFrontier` | src/rein/dag.py:254-257 | however many leaves report in whatever order, the frontier is unchanged |
| `CommitGraph.TipsAreEnough` | src/rein/build_git.py:366-371 | if every branch tip stays within reach of a branch, every commit does |
| `CommitGraph.DeletingMerged` | src/rein/build_git.py:379-391 | deleting a branch whose tip another reaches loses nothing |
| `Preservation.DeletingIsSafeIff` | src/rein/build_git.py:379-391 | and deleting is safe exactly when what the branch holds is within reach without it |
| `GitWork.CommittingLosesNothing` | src/rein/build_git.py:636-679 | committing what is outstanding moves the branch forward and puts the work on it |
| `GitWork.NothingLostThrough` | src/rein/build_git.py:366-371 | keeping commits and uncommitted work composes over steps |
| `Preservation.FinalizeCommit` | src/rein/build_git.py:636-679 | true exactly with the checkout there and every call answered, and then it is committed or clean; false with nothing changed |
| `Preservation.SalvageName` | src/rein/build_git.py:324-332 | the name is a salvage name of the branch and not taken, unless git failed to say so; the loop ends |
| `Preservation.SalvageLeftovers` | src/rein/build_git.py:361-394 | the checkout goes only once finalized, the branch is deleted only when the target reaches it, else renamed to a free name; with every call answered that is done; nothing is lost unless the branch is the target itself and holds what no other reaches |
| `Preservation.RestoreSalvaged` | src/rein/build_git.py:305-322 | restored means merged on top, anything else leaves the repository as it was; with every call answered it is restored exactly when there is something to restore and it merges |
| `Preservation.AddWorktree` | src/rein/build_git.py:286-303 | a worktree made is on the leaf's branch, clean, on the target's tip, with the preserved work within reach when it merged; with every call answered it is made whenever it can be, with what the branch held unmerged or else what it was to restore; nothing is lost on any path unless the branch is the target itself and holds what no other reaches |
| `Preservation.SetAside` | src/rein/build_git.py:396-409 | the branch is renamed whole, its tip under the new name and none other touched, or everything stays: the name is not checked but git refuses a taken one; with every call answered only that keeps it |
| `Preservation.CleanupWorktree` | src/rein/build_git.py:411-424 | the worktree is removed only after its work is committed, and with every call answered it is |
| `Preservation.TakeOffJoin` | src/rein/build_git.py:334-359 | the branch moves back and what was above it is on the new branch, exactly when the checkout is there, the name free and every call answered; failing, it is where it was |
| `Preservation.MergeLeaf` | src/rein/build_git.py:426-447 | with every call answered a leaf is merged exactly when its branch and the checkout are there and it does not conflict: the head stays when it had the leaf's tip and else is a commit of both, the leaf's worktree is gone and nothing else changed; no commit is lost, and no uncommitted work when the caller finalized it; a conflict changes nothing |
| `Preservation.FinishLeaf` | src/rein/build_loop.py:4925-4944 | a leaf is finalized and then landed, exactly when it is all there, every call is answered and it does not conflict, on a commit that reaches its finalized branch and the head; on any path it loses neither commits nor uncommitted work |
| `Preservation.DoAll` | src/rein/build_git.py:286-447 | over every sequence of these steps, and of edits, commits and head moves in the checkouts between them, with any git call failing: over every stretch each commit once within reach of a branch stays so, unless a leaf's branch that is its own target holds what no other reaches; and if besides nothing is edited, no head moved and nothing landed unfinalized, no uncommitted work on a branch is lost. With every call answered each step does what it is for |
| `Preservation.RemovedWorkIsSavedIff` | src/rein/build_git.py:411-424 | work finalized and its worktree removed is within reach of a branch exactly when the worktree's head was on one |
| `ChangeReview.ResolutionOf` | src/rein/change_review.py:333-376 | a dropped finding is closed exactly when it names code, all of it readable, and no file git shows for it at the commit holds the lines; a file git gives no answer for counts as not there |
| `ChangeReview.RunExactly` | src/rein/change_review.py:379-389 | lines are there when the file is something, those lines, and something |
| `ChangeReview.TextExactly` | src/rein/change_review.py:255-266 | what a dispute binds is each anchor's path and lines, in order, all of them readable |
| `ChangeReview.SeveritiesInOrder` | src/rein/models.py:43-44 | of the four severities low, medium, high and critical each outranks the one before; blocking are the last two and what is none of them |
| `ChangeReview.MayStateExactly` | src/rein/change_review.py:530-560 | an entry may be stated exactly with a well-formed id, a known severity, a scenario, anchors in the commit, under a review asked for or the one its id was carried under, and no less severe than that |
| `ChangeReview.ClosesThoughThere` | src/rein/change_review.py:366-370 | a finding whose code the commit still holds is closed exactly when all its anchors can be read and git answered for none whose lines are there |
| `ChangeReview.AnsweredClosesTheGone` | src/rein/change_review.py:344-349 | with every call answered, exactly what the commit holds none of is closed |
| `ChangeReview.ApplyDisputes` | src/rein/change_review.py:296-330 | exactly the findings with a live dispute are marked, and not blocking |
| `ChangeReview.PriorBlocking` | src/rein/review.py:1367-1405 | carried are exactly the findings that hold acceptance shut and no live dispute contradicts |
| `ChangeReview.RunChangeReview` | src/rein/change_review.py:392-492 | an answer is taken exactly when each entry may be stated, no carried finding is left out that the re-check does not close, and no id is used twice; the result is what was stated and what was closed |
| `ChangeReview.CarryForward` | src/rein/change_review.py:495-515 | with no review run, each finding is carried as it stood or closed as the re-check closes it |
| `ChangeReview.HasDuplicates` | src/rein/review_policy.py:435-453 | a repeated id is found exactly when there is one |
| `FindingLife.GenerateReview` | src/rein/review.py:1367-1405 | one regeneration leaves the document `Generate` says, with distinct ids |
| `FindingLife.GenerationKeeps` | src/rein/change_review.py:392-421 | whatever is answered, a finding that holds acceptance shut stays, as severe as it was, or the re-check closes it and the document says resolved, or a dispute is live on it |
| `FindingLife.NeverLessSevere` | src/rein/change_review.py:459-466 | what the next document holds open of a carried finding is critical if it was critical, and high or critical if it was high |
| `FindingLife.StatedUnderItsReview` | src/rein/change_review.py:536-545 | what is stated stands under a review asked for or its own, blocks exactly at high and critical, and keeps the change it was first seen in |
| `FindingLife.ClosedExactly` | src/rein/change_review.py:411-419 | a finding without a live dispute is closed exactly when the re-check closes it and it is not stated again |
| `FindingLife.ClosedExactlyWhenGone` | src/rein/change_review.py:411-419 | with git answering for its anchors, exactly when its code is gone and it is not stated again |
| `FindingLife.ClosedThoughThere` | src/rein/change_review.py:366-370 | left out while its code stands, it is closed exactly when git answered for no anchor whose lines are there and the rest can be read |
| `FindingLife.ResolvedByASilentGit` | src/rein/change_review.py:366-368 | for example: nothing stated, no answer from git, the line in place, and the finding is resolved; with an answer the reading is refused |
| `FindingLife.StaysUntilAnswered` | src/rein/change_review.py:392-421 | across any number of regenerations about one base with any answers, a finding at the blocking floor or above is still there, blocking, never less severe, until the re-check of it as last stated closes it or a person contradicts it |
| `FindingLife.StaysUntilGone` | src/rein/change_review.py:392-421 | and with git answering for its anchors, until the code it named as last stated is gone or a person contradicts it |
| `FindingLife.UnanchoredNeverCloses` | src/rein/change_review.py:354-356 | a finding that as last stated names no code stays over any number of regenerations about one base, whatever becomes of the tree |
| `FindingLife.AcceptedAnchors` | src/rein/review_policy.py:459-483 | an accepted anchor can be read back exactly when it names its blob and ends within the file's lines, and its lines are then there |
| `FindingLife.AcceptedBeyondTheEnd` | src/rein/review_policy.py:479-482 | for example line 2 of a file of one line that ends in a newline: accepted, never read back, its finding never closed by itself |
| `FindingLife.EditsRetireNoDispute` | src/rein/change_review.py:269-293 | whether a dispute binds a finding as recorded is a matter of the blobs it was read from alone: no edit retires one |
| `FindingLife.LapsesExactlyWhenUnreadable` | src/rein/change_review.py:277-279 | a dispute that bound a finding lapses exactly when a blob the finding was read from is gone |
| `FindingLife.MarkedIsLive` | src/rein/change_review.py:296-330 | what a reading marks disputed, a record binds to that finding's own text |
| `FindingLife.CarriedExactly` | src/rein/review.py:1367-1405 | a finding of the last document is carried exactly when that is about the same base, the finding held acceptance shut, and no dispute is live on it |
| `FindingLife.ComesBackIff` | src/rein/review.py:1387-1404 | what is not carried is in the next document exactly when a reviewer was asked and states it |
| `FindingLife.DisputedComesBackIff` | src/rein/review.py:1387-1404 | so is a finding with a live dispute, and one the document marks disputed, whatever became of the code and the record |
| `FindingLife.KeptExactly` | src/rein/review.py:1387-1404 | a finding of the last document about the same base is in the next one exactly when it held acceptance shut undisputed or is stated again |
| `FindingLife.WhatComesBackHolds` | src/rein/change_review.py:296-330 | what comes back without being carried holds acceptance shut exactly when it is stated at a blocking severity and no dispute is live on it as stated |
| `FindingLife.EditedAndForgotten` | src/rein/change_review.py:272-275 | for example: a finding about two places is stated, and disputed by its own text; one place is edited, the other is not; the next reading states nothing, the dispute is live and the finding is gone, where undisputed it would have stayed |
| `Cancellation.Token.Attach` | src/rein/common.py:230-239 | the launch is held, and refused exactly when the token was tripped; the step the interleavings take |
| `Cancellation.Token.Cancel` | src/rein/common.py:222-228 | the token is tripped and every launch it held is killed |
| `Cancellation.NoLaunchEscapes` | src/rein/common.py:195-243 | in every interleaving, once a `cancel` has finished and a launch is past its attach check, it was killed or had ended, or its own thread dropped its kill and let go of it |
| `Cancellation.DroppedInAHandler` | src/rein/common.py:319-339 | a kill is dropped only by an interrupt that comes while a timeout or another interrupt is handled, before that one's kill |
| `Cancellation.NoLaunchEscapesUnlessDropped` | src/rein/common.py:195-243 | so without one, every such launch was killed or had ended |
| `Cancellation.DroppedEscapes` | src/rein/common.py:319-339 | and with one it may run on, no `cancel` having it to kill |
| `Cancellation.NoAnswerAfterTrip` | src/rein/common.py:310-316 | no launch comes back with output after the token was tripped that had not by then |

## Left out

- FisherTest.HoldsExactly: p is an exact rational here; the code's is a float, whose rounding at the boundary `p <= ALPHA` and in the recorded `round(p, 4)` is not modelled.
- TrialLedger.Ledger.Write: transcripts, `timed_out` names, timestamps and the pruning of other keys' transcripts are not in the record modelled; a process that stops is a script of attempts that ends.
- TrialLedger.Ledger.Add: a trial's models are a set, so the two refusals for no model and another model are one.
- TopoOrder.OrderIsLeast: ids are compared by character as Python compares strings; nothing else of Python's strings is modelled.
- Bundles.LaunchIsContiguous: of a task's fields only those `bundleable`, `bundle`, `merged` and `of_member` read are modelled; titles, claims, risk and tickets of a merged launch are not.
- Kahn.FromTasks: the checks of a task's kind and status vocabulary are the datatypes'.
- GateAuthority.Cycle.Approve: every reading `readiness` makes besides the fan of gates and the change requests is one unconstrained Boolean; receipts keep the id, crossing digest and carried approval only; digests are strings compared for equality.
- GateAuthority.Cycle.RollBack: marked tasks and the stale review appear only as the event's subjects; a `plan_invalidated` event is one of the events about no gate.
- GateAuthority.Cycle.Add: blanks are stripped already.
- GateRuns.EveryRunIsSound: requests draw ids no other request has; with a repeated id, answering one would reopen the other.
- GateLog.WithdrawnApproval: subjects and details are typed; the defaults for a missing detail are empty strings.
- LeafServer.Store.ApplyRequest: tokens are an abstract value (signing, expiry and encoding are not modelled), report texts are not truncated, and decision categories are left out.
- LeafRuns.EveryRunIsSequential: documents are compared whole, which is the code's digest taken as injective; archiving a cycle is one step, its closing event one of the orchestrator's writes, and the links and seals of the chain are not modelled.
- LeafRuns.RecordedExactlyOnce: a connection that is dropped after its request was recorded is not modelled; the reply is taken as given.
- Preservation.DoAll: git is a set of calls that may each fail or do what its manual says, and whether two commits conflict is a fixed relation; ignored files, the excluded prefixes, a merge's conflicted tree before it is aborted, an index half staged, and branches moved by anything but these steps and the checkouts are not modelled.
- Preservation.SalvageLeftovers: a stray directory that git resolves to the enclosing repository is taken as a status that fails.
- Preservation.MergeLeaf: uncommitted work in the leaf's worktree is the caller's to have finalized, so what is kept of it is stated for that case.
- ChangeReview.ResolutionOf: an object git fails to read is one that is not reachable, which closes nothing; the calls that check an answer's own anchors are answered, a failure there only refusing the answer.
- ChangeReview.RunChangeReview: carried findings have distinct ids, which every document written has; anchors that are no mapping, and scenarios of blanks, are not representable.
- FindingLife.GenerateReview: a review composed of several readings, whose findings are merged and renumbered, is one reading here; the rest of the document is not modelled.
- FindingLife.StaysUntilAnswered: a review composed of several readings is one reading here; its merge and renumbering are not modelled, nor are the other stages' findings.
- Cancellation.NoLaunchEscapes: an interrupt between the start of a launch and its `try` or within a kill, descendants that leave the process group, and timeouts by the clock are not modelled.
- Issues, `join`'s swap of falsified premises, and the task state beyond status and added order are not modelled.
- The user interface, prompts, adapters, conflict repair, conformance checks and the schemas are not modelled.
