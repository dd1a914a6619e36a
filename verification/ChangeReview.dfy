/** One reading of the whole change, held to the blocking findings an earlier one recorded
    (src/rein/change_review.py, src/rein/review_policy.py). */
module ChangeReview {
  import opened Optional

  // ---- the committed tree ------------------------------------------------------------------------

  /** A file as its lines, and the number of newlines in it. */
  datatype File = File(blob: string, lines: seq<string>, newlines: nat) {
    /** The number of lines the policy counts: newlines and one. */
    function Total(): nat {
      newlines + 1
    }
  }

  /** A call for the file of a finding's anchor at the commit: the finding, and which of its anchors. */
  type Call = (string, nat)

  /** The objects still reachable, each commit's files, and the calls for a file at the commit that git
      gave no answer to, having failed or timed out: the code takes them for files that are not there. */
  datatype Repo = Repo(blobs: map<string, seq<string>>, commits: map<string, map<string, File>>, unanswered: set<Call>) {
    function At(commit: string): map<string, File> {
      if commit in commits then commits[commit] else map[]
    }
  }

  datatype Anchor = Anchor(path: string, blob: string, start: int, end: int)

  // ---- findings --------------------------------------------------------------------------------------

  datatype Change = Change(base: string, head: string)

  datatype Standing = Open | Resolved(head: string) | Disputed

  datatype Finding = Finding(
    id: string,
    review: string,
    severity: string,
    scenario: string,
    anchors: seq<Anchor>,
    blocking: bool,
    standing: Standing,
    firstSeen: Option<Change>)

  /** One entry of a reviewer's answer. */
  datatype Said =
    | NotAMapping
    | Said(id: string, review: string, severity: string, scenario: string, anchors: seq<Anchor>)

  function Rank(severity: string): int {
    match severity
    case "low" => 0
    case "medium" => 1
    case "high" => 2
    case "critical" => 3
    case _ => -1
  }

  const FLOOR: int := 2

  /** The policy's answer: at the floor and above, and for what it does not know. */
  predicate Blocks(severity: string) {
    Rank(severity) < 0 || Rank(severity) >= FLOOR
  }

  /** No less severe, of the four severities there are. */
  predicate NoLess(severity: string, than: string) {
    match than
    case "critical" => severity == "critical"
    case "high" => severity in {"high", "critical"}
    case "medium" => severity in {"medium", "high", "critical"}
    case _ => true
  }

  /** The policy knows four severities, in this order, and blocks at the last two and at what it does not know. */
  lemma SeveritiesInOrder(severity: string, than: string)
    ensures Rank(severity) >= 0 <==> severity in {"low", "medium", "high", "critical"}
    ensures Rank(severity) >= FLOOR <==> severity in {"high", "critical"}
    ensures Blocks(severity) <==> severity !in {"low", "medium"}
    ensures Rank(severity) >= 0 ==> (Rank(severity) >= Rank(than) <==> NoLess(severity, than))
  {
  }

  predicate HoldsAcceptance(f: Finding) {
    f.blocking && f.standing == Open
  }

  // ---- is the code it named still there? ----------------------------------------------------------------

  function AnchoredLines(repo: Repo, anchor: Anchor): Option<seq<string>> {
    if anchor.blob == "" || anchor.blob !in repo.blobs then None
    else
      var lines := repo.blobs[anchor.blob];
      if anchor.start < 1 || anchor.end < anchor.start || anchor.end > |lines| then None
      else Some(lines[anchor.start - 1..anchor.end])
  }

  predicate RunAt(haystack: seq<string>, needle: seq<string>, i: int) {
    0 <= i <= |haystack| - |needle| && haystack[i..i + |needle|] == needle
  }

  predicate ContainsRun(haystack: seq<string>, needle: seq<string>) {
    needle == [] || exists i :: 0 <= i <= |haystack| - |needle| && RunAt(haystack, needle, i)
  }

  /** The lines stand together somewhere in the file. */
  lemma RunExactly(haystack: seq<string>, needle: seq<string>)
    ensures ContainsRun(haystack, needle) <==> exists before, behind :: haystack == before + needle + behind
  {
    if needle == [] {
      assert haystack == haystack + needle + [];
    } else {
      if i :| 0 <= i <= |haystack| - |needle| && RunAt(haystack, needle, i) {
        assert haystack == haystack[..i] + needle + haystack[i + |needle|..];
      }
      if before, behind :| haystack == before + needle + behind {
        assert RunAt(haystack, needle, |before|);
      }
    }
  }

  predicate Readable(repo: Repo, anchor: Anchor) {
    anchor.path != "" && AnchoredLines(repo, anchor).Some?
  }

  /** The commit holds the lines the anchor was read from. */
  predicate StillThere(repo: Repo, commit: string, anchor: Anchor) {
    && Readable(repo, anchor)
    && anchor.path in repo.At(commit)
    && ContainsRun(repo.At(commit)[anchor.path].lines, AnchoredLines(repo, anchor).value)
  }

  /** The change has resolved the finding: it named some code, all of it can be read, none of it is left. */
  predicate Gone(f: Finding, repo: Repo, commit: string) {
    f.anchors != [] && forall k :: 0 <= k < |f.anchors| ==> Readable(repo, f.anchors[k]) && !StillThere(repo, commit, f.anchors[k])
  }

  /** What the code sees of an anchor is no reason to keep the finding. */
  predicate Passes(f: Finding, repo: Repo, commit: string, k: nat)
    requires k < |f.anchors|
  {
    Readable(repo, f.anchors[k]) && ((f.id, k) in repo.unanswered || !StillThere(repo, commit, f.anchors[k]))
  }

  /** The code closes the finding when it is left out. */
  predicate Closes(f: Finding, repo: Repo, commit: string) {
    f.anchors != [] && forall k :: 0 <= k < |f.anchors| ==> Passes(f, repo, commit, k)
  }

  /** Git answered for every anchor of the finding. */
  predicate Answered(f: Finding, repo: Repo) {
    forall k :: 0 <= k < |f.anchors| ==> (f.id, k) !in repo.unanswered
  }

  /** A finding whose code the commit still holds is closed exactly when every anchor can be read and
      no anchor whose lines are still there was answered for. */
  lemma ClosesThoughThere(f: Finding, repo: Repo, commit: string)
    requires f.anchors != [] && !Gone(f, repo, commit)
    ensures Closes(f, repo, commit) <==>
              && (forall k :: 0 <= k < |f.anchors| ==> Readable(repo, f.anchors[k]))
              && (forall k :: 0 <= k < |f.anchors| && StillThere(repo, commit, f.anchors[k]) ==> (f.id, k) in repo.unanswered)
              && (exists k :: 0 <= k < |f.anchors| && StillThere(repo, commit, f.anchors[k]) && (f.id, k) in repo.unanswered)
  {
    if Closes(f, repo, commit) {
      forall k | 0 <= k < |f.anchors|
        ensures Readable(repo, f.anchors[k]) && (StillThere(repo, commit, f.anchors[k]) ==> (f.id, k) in repo.unanswered)
      {
        assert Passes(f, repo, commit, k);
      }
    }
  }

  /** With every call answered the code closes exactly what the change resolved. */
  lemma AnsweredClosesTheGone(f: Finding, repo: Repo, commit: string)
    requires Answered(f, repo)
    ensures Closes(f, repo, commit) <==> Gone(f, repo, commit)
  {
    forall k | 0 <= k < |f.anchors|
      ensures Passes(f, repo, commit, k) <==> Readable(repo, f.anchors[k]) && !StillThere(repo, commit, f.anchors[k])
    {
    }
  }

  function Close(f: Finding, commit: string): Finding {
    f.(blocking := false, standing := Resolved(commit))
  }

  /** `git show commit:path`: the file's lines, or nothing, whether it is not there or git failed. */
  function Show(f: Finding, k: nat, repo: Repo, commit: string): Option<seq<string>>
    requires k < |f.anchors|
  {
    var path := f.anchors[k].path;
    if (f.id, k) in repo.unanswered || path !in repo.At(commit) then None else Some(repo.At(commit)[path].lines)
  }

  /** `resolution_of`. */
  method ResolutionOf(f: Finding, repo: Repo, commit: string) returns (resolved: Option<Finding>)
    ensures resolved == if Closes(f, repo, commit) then Some(Close(f, commit)) else None
  {
    if f.anchors == [] {
      return None;
    }
    for k := 0 to |f.anchors|
      invariant forall j :: 0 <= j < k ==> Passes(f, repo, commit, j)
    {
      var lines := AnchoredLines(repo, f.anchors[k]);
      if f.anchors[k].path == "" || lines.None? {
        assert !Passes(f, repo, commit, k);
        return None;
      }
      var shown := Show(f, k, repo, commit);
      if shown.None? {
        continue;
      }
      if ContainsRun(shown.value, lines.value) {
        assert !Passes(f, repo, commit, k);
        return None;
      }
    }
    return Some(Close(f, commit));
  }

  // ---- disputes ----------------------------------------------------------------------------------------------

  /** What a finding named, as text: each anchor's path and lines. Nothing when any cannot be read. */
  function AnchoredText(repo: Repo, anchors: seq<Anchor>): Option<seq<seq<string>>> {
    if anchors == [] then Some([])
    else
      var rest := AnchoredText(repo, anchors[..|anchors| - 1]);
      var last := anchors[|anchors| - 1];
      if rest.None? || last.path == "" || AnchoredLines(repo, last).None? then None
      else Some(rest.value + [[last.path] + AnchoredLines(repo, last).value])
  }

  /** Each anchor can be read, and the text has its path and its lines, in order. */
  lemma {:induction false} TextExactly(repo: Repo, anchors: seq<Anchor>, text: seq<seq<string>>)
    ensures AnchoredText(repo, anchors) == Some(text) <==>
              && |text| == |anchors|
              && forall k :: 0 <= k < |anchors| ==> Readable(repo, anchors[k]) && text[k] == [anchors[k].path] + AnchoredLines(repo, anchors[k]).value
  {
    if anchors != [] {
      var n := |anchors| - 1;
      if text != [] {
        TextExactly(repo, anchors[..n], text[..|text| - 1]);
        assert text == text[..|text| - 1] + [text[|text| - 1]];
      }
      if AnchoredText(repo, anchors[..n]).Some? {
        TextExactly(repo, anchors[..n], AnchoredText(repo, anchors[..n]).value);
      }
    }
  }

  /** The disputes people recorded: by id, the text the finding was about when they did. */
  type Disputes = map<string, seq<seq<string>>>

  predicate LiveDispute(repo: Repo, disputes: Disputes, f: Finding) {
    && f.id in disputes && f.anchors != []
    && AnchoredText(repo, f.anchors) == Some(disputes[f.id])
  }

  function ApplyDispute(repo: Repo, disputes: Disputes, f: Finding): Finding {
    if LiveDispute(repo, disputes, f) then f.(blocking := false, standing := Disputed) else f
  }

  function Disputing(repo: Repo, disputes: Disputes, findings: seq<Finding>): (marked: seq<Finding>)
    ensures |marked| == |findings|
    ensures forall i :: 0 <= i < |findings| ==> marked[i] == ApplyDispute(repo, disputes, findings[i])
  {
    if findings == [] then []
    else Disputing(repo, disputes, findings[..|findings| - 1]) + [ApplyDispute(repo, disputes, findings[|findings| - 1])]
  }

  /** `apply_disputes`. */
  method ApplyDisputes(repo: Repo, disputes: Disputes, findings: seq<Finding>) returns (out: seq<Finding>)
    ensures out == Disputing(repo, disputes, findings)
    ensures |out| == |findings| && forall i :: 0 <= i < |findings| ==>
              out[i] == if LiveDispute(repo, disputes, findings[i]) then findings[i].(blocking := false, standing := Disputed) else findings[i]
  {
    out := [];
    for i := 0 to |findings|
      invariant out == Disputing(repo, disputes, findings[..i])
    {
      var entry := findings[i];
      if LiveDispute(repo, disputes, entry) {
        entry := entry.(blocking := false, standing := Disputed);
      }
      out := out + [entry];
      assert findings[..i + 1][..i] == findings[..i];
    }
    assert findings[..|findings|] == findings;
  }

  /** `_prior_blocking`: what the last document holds against this base, less what a person contradicts. */
  function PriorBlocking(repo: Repo, disputes: Disputes, findings: seq<Finding>): (prior: seq<Finding>)
    ensures forall f :: f in prior <==> f in findings && HoldsAcceptance(f) && !LiveDispute(repo, disputes, f)
  {
    if findings == [] then []
    else
      var rest, last := findings[..|findings| - 1], findings[|findings| - 1];
      assert findings == rest + [last];
      PriorBlocking(repo, disputes, rest) + if HoldsAcceptance(last) && !LiveDispute(repo, disputes, last) then [last] else []
  }

  // ---- one reading ---------------------------------------------------------------------------------------------

  predicate IsFindingId(id: string) {
    |id| >= 5 && id[..2] == "F-" && forall i :: 2 <= i < |id| ==> '0' <= id[i] <= '9'
  }

  predicate ValidAnchor(repo: Repo, commit: string, anchor: Anchor) {
    && anchor.path in repo.At(commit)
    && (anchor.blob == "" || anchor.blob == repo.At(commit)[anchor.path].blob)
    && 1 <= anchor.start <= anchor.end <= repo.At(commit)[anchor.path].Total()
  }

  function Find(findings: seq<Finding>, id: string): (found: Option<Finding>)
    ensures found.Some? ==> found.value in findings && found.value.id == id
    ensures found.None? ==> forall f :: f in findings ==> f.id != id
  {
    if findings == [] then None
    else if findings[|findings| - 1].id == id then Some(findings[|findings| - 1])
    else Find(findings[..|findings| - 1], id)
  }

  /** The entry is a finding this reading may state: well formed, anchored in the commit, under a review
      asked for or its own, and not at a lower severity than it was carried at. */
  predicate MayState(said: Said, prior: seq<Finding>, asked: set<string>, repo: Repo, commit: string) {
    && said.Said?
    && IsFindingId(said.id)
    && said.review != ""
    && (said.review in asked || (Find(prior, said.id).Some? && Find(prior, said.id).value.review == said.review))
    && Rank(said.severity) >= 0
    && said.scenario != ""
    && (forall k :: 0 <= k < |said.anchors| ==> ValidAnchor(repo, commit, said.anchors[k]))
    && (Find(prior, said.id).Some? ==> Rank(said.severity) >= Rank(Find(prior, said.id).value.severity))
  }

  /** What that asks, in full. */
  lemma MayStateExactly(said: Said, prior: seq<Finding>, asked: set<string>, repo: Repo, commit: string)
    requires DistinctIds(prior)
    ensures MayState(said, prior, asked, repo, commit) <==>
              && said.Said?
              && |said.id| >= 5 && said.id[0] == 'F' && said.id[1] == '-' && (forall i :: 2 <= i < |said.id| ==> '0' <= said.id[i] <= '9')
              && said.review != "" && said.scenario != "" && said.severity in {"low", "medium", "high", "critical"}
              && (said.review in asked || exists p :: p in prior && p.id == said.id && p.review == said.review)
              && (forall p :: p in prior && p.id == said.id ==> NoLess(said.severity, p.severity))
              && (forall a :: a in said.anchors ==>
                    && a.path in repo.At(commit)
                    && (a.blob == "" || a.blob == repo.At(commit)[a.path].blob)
                    && 1 <= a.start <= a.end <= repo.At(commit)[a.path].newlines + 1)
  {
    if said.Said? {
      var found := Find(prior, said.id);
      forall p | p in prior && p.id == said.id ensures found == Some(p) {
      }
      assert |said.id| >= 2 ==> (said.id[..2] == "F-" <==> said.id[0] == 'F' && said.id[1] == '-');
      if found.Some? {
        SeveritiesInOrder(said.severity, found.value.severity);
      }
      assert (forall k :: 0 <= k < |said.anchors| ==> ValidAnchor(repo, commit, said.anchors[k]))
             <==> forall a :: a in said.anchors ==> ValidAnchor(repo, commit, a);
    }
  }

  function FirstSeen(prior: Option<Finding>, change: Change): Option<Change> {
    if prior.Some? && prior.value.firstSeen.Some? then prior.value.firstSeen else Some(change)
  }

  function Opened(said: Said, prior: seq<Finding>, change: Change): Finding
    requires said.Said?
  {
    Finding(said.id, said.review, said.severity, said.scenario, said.anchors, Blocks(said.severity), Open,
            FirstSeen(Find(prior, said.id), change))
  }

  /** The findings an answer states, in its order. */
  function Stated(answer: seq<Said>, prior: seq<Finding>, change: Change): (stated: seq<Finding>)
    ensures forall f :: f in stated <==> exists i :: 0 <= i < |answer| && answer[i].Said? && f == Opened(answer[i], prior, change)
  {
    if answer == [] then []
    else
      var rest, last := answer[..|answer| - 1], answer[|answer| - 1];
      Stated(rest, prior, change) + if last.Said? then [Opened(last, prior, change)] else []
  }

  predicate Restates(answer: seq<Said>, id: string) {
    exists i :: 0 <= i < |answer| && answer[i].Said? && answer[i].id == id
  }

  /** The carried findings an answer leaves out and the code closes. */
  function Closed(prior: seq<Finding>, answer: seq<Said>, repo: Repo, commit: string): (closed: seq<Finding>)
    ensures forall c :: c in closed <==>
              exists i :: 0 <= i < |prior| && !Restates(answer, prior[i].id) && Closes(prior[i], repo, commit) && c == Close(prior[i], commit)
  {
    if prior == [] then []
    else
      var rest, last := prior[..|prior| - 1], prior[|prior| - 1];
      Closed(rest, answer, repo, commit) +
      if !Restates(answer, last.id) && Closes(last, repo, commit) then [Close(last, commit)] else []
  }

  predicate DistinctIds(findings: seq<Finding>) {
    forall i, j :: 0 <= i < j < |findings| ==> findings[i].id != findings[j].id
  }

  /** The answer is taken: every entry may be stated, no carried finding is left out that the code does
      not close, and no id is used twice. */
  predicate Accepts(answer: seq<Said>, prior: seq<Finding>, asked: set<string>, repo: Repo, change: Change) {
    && (forall i :: 0 <= i < |answer| ==> MayState(answer[i], prior, asked, repo, change.head))
    && (forall i :: 0 <= i < |prior| ==> Restates(answer, prior[i].id) || Closes(prior[i], repo, change.head))
    && DistinctIds(Stated(answer, prior, change) + Closed(prior, answer, repo, change.head))
  }

  /** `reject_duplicate_ids`. */
  method HasDuplicates(findings: seq<Finding>) returns (found: bool)
    ensures found == !DistinctIds(findings)
  {
    var seen: set<string> := {};
    for i := 0 to |findings|
      invariant forall id :: id in seen <==> exists j :: 0 <= j < i && findings[j].id == id
      invariant DistinctIds(findings[..i])
    {
      if findings[i].id in seen {
        return true;
      }
      seen := seen + {findings[i].id};
    }
    assert findings[..|findings|] == findings;
    return false;
  }

  /** The entries of an answer, one by one. */
  method ReadAnswer(answer: seq<Said>, prior: seq<Finding>, asked: set<string>, repo: Repo, change: Change)
    returns (refused: bool, findings: seq<Finding>, restated: set<string>)
    ensures refused <==> exists k :: 0 <= k < |answer| && !MayState(answer[k], prior, asked, repo, change.head)
    ensures findings == Stated(answer, prior, change)
    ensures forall id :: id in restated <==> Restates(answer, id)
  {
    refused, findings, restated := false, [], {};
    for i := 0 to |answer|
      invariant refused <==> exists k :: 0 <= k < i && !MayState(answer[k], prior, asked, repo, change.head)
      invariant findings == Stated(answer[..i], prior, change)
      invariant forall id :: id in restated <==> exists k :: 0 <= k < i && answer[k].Said? && answer[k].id == id
    {
      assert answer[..i + 1][..i] == answer[..i];
      if !MayState(answer[i], prior, asked, repo, change.head) {
        refused := true;
      }
      if answer[i].Said? {
        restated := restated + {answer[i].id};
        findings := findings + [Opened(answer[i], prior, change)];
      }
    }
    assert answer[..|answer|] == answer;
  }

  /** The carried findings an answer left out. */
  method SettleDropped(answer: seq<Said>, restated: set<string>, prior: seq<Finding>, repo: Repo, commit: string)
    returns (unresolved: bool, closed: seq<Finding>)
    requires forall id :: id in restated <==> Restates(answer, id)
    ensures unresolved <==> exists k :: 0 <= k < |prior| && !Restates(answer, prior[k].id) && !Closes(prior[k], repo, commit)
    ensures closed == Closed(prior, answer, repo, commit)
  {
    unresolved, closed := false, [];
    for i := 0 to |prior|
      invariant unresolved <==> exists k :: 0 <= k < i && !Restates(answer, prior[k].id) && !Closes(prior[k], repo, commit)
      invariant closed == Closed(prior[..i], answer, repo, commit)
    {
      assert prior[..i + 1][..i] == prior[..i];
      if prior[i].id in restated {
        continue;
      }
      var resolved := ResolutionOf(prior[i], repo, commit);
      if resolved.None? {
        unresolved := true;
      } else {
        closed := closed + [resolved.value];
      }
    }
    assert prior[..|prior|] == prior;
  }

  /** `run_change_review`: the findings and the ones it closed, or nothing when the answer is refused. */
  method RunChangeReview(answer: seq<Said>, prior: seq<Finding>, asked: set<string>, repo: Repo, change: Change)
    returns (result: Option<(seq<Finding>, seq<Finding>)>)
    ensures result == if Accepts(answer, prior, asked, repo, change)
                      then Some((Stated(answer, prior, change) + Closed(prior, answer, repo, change.head),
                                 Closed(prior, answer, repo, change.head)))
                      else None
  {
    var refused, stated, restated := ReadAnswer(answer, prior, asked, repo, change);
    var unresolved, closed := SettleDropped(answer, restated, prior, repo, change.head);
    var findings := stated + closed;
    var duplicates := HasDuplicates(findings);
    if refused || unresolved || duplicates {
      return None;
    }
    return Some((findings, closed));
  }

  function CarryOne(f: Finding, repo: Repo, commit: string): Finding {
    if Closes(f, repo, commit) then Close(f, commit) else f
  }

  function Carried(prior: seq<Finding>, repo: Repo, commit: string): (carried: seq<Finding>)
    ensures |carried| == |prior|
    ensures forall i :: 0 <= i < |prior| ==> carried[i] == CarryOne(prior[i], repo, commit)
  {
    if prior == [] then [] else Carried(prior[..|prior| - 1], repo, commit) + [CarryOne(prior[|prior| - 1], repo, commit)]
  }

  /** `carry_forward`: a review that read nothing. */
  method CarryForward(prior: seq<Finding>, repo: Repo, commit: string) returns (findings: seq<Finding>, closed: seq<Finding>)
    ensures findings == Carried(prior, repo, commit)
    ensures forall c :: c in closed <==> exists i :: 0 <= i < |prior| && Closes(prior[i], repo, commit) && c == Close(prior[i], commit)
  {
    findings, closed := [], [];
    for i := 0 to |prior|
      invariant findings == Carried(prior[..i], repo, commit)
      invariant forall c :: c in closed <==> exists k :: 0 <= k < i && Closes(prior[k], repo, commit) && c == Close(prior[k], commit)
    {
      assert prior[..i + 1][..i] == prior[..i];
      var resolved := ResolutionOf(prior[i], repo, commit);
      if resolved.None? {
        findings := findings + [prior[i]];
      } else {
        findings := findings + [resolved.value];
        closed := closed + [resolved.value];
      }
    }
    assert prior[..|prior|] == prior;
  }
}
