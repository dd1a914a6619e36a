/** The life of a blocking finding, over any number of readings by a reviewer that may answer anything
    (src/rein/change_review.py, src/rein/review.py). */
module FindingLife {
  import opened Optional
  import opened ChangeReview

  datatype Review = Review(base: string, findings: seq<Finding>)

  /** One regeneration: what the tree and the disputes were, which reviews ran, and what was answered. */
  datatype Generation = Generation(
    repo: Repo, change: Change, disputes: Disputes, asked: set<string>, answer: seq<Said>)

  function PriorOf(doc: Option<Review>, g: Generation): seq<Finding> {
    if doc.None? || g.change.base == "" || doc.value.base != g.change.base then []
    else PriorBlocking(g.repo, g.disputes, doc.value.findings)
  }

  /** The findings of a generation, before disputes are marked; nothing when the answer is refused. */
  function Read(doc: Option<Review>, g: Generation): Option<seq<Finding>> {
    var prior := PriorOf(doc, g);
    if g.asked == {} then Some(Carried(prior, g.repo, g.change.head))
    else if Accepts(g.answer, prior, g.asked, g.repo, g.change) then
      Some(Stated(g.answer, prior, g.change) + Closed(prior, g.answer, g.repo, g.change.head))
    else None
  }

  /** The document after a generation: a refused answer leaves the one there was. */
  function Generate(doc: Option<Review>, g: Generation): Option<Review> {
    var read := Read(doc, g);
    if read.None? then doc else Some(Review(g.change.base, Disputing(g.repo, g.disputes, read.value)))
  }

  /** The stage as it runs. */
  method GenerateReview(doc: Option<Review>, g: Generation) returns (next: Option<Review>)
    requires doc.Some? ==> DistinctIds(doc.value.findings)
    ensures next == Generate(doc, g)
    ensures next.Some? ==> DistinctIds(next.value.findings)
  {
    GenerateKeepsIds(doc, g);
    var prior := PriorOf(doc, g);
    var findings;
    if g.asked == {} {
      var closed;
      findings, closed := CarryForward(prior, g.repo, g.change.head);
    } else {
      var result := RunChangeReview(g.answer, prior, g.asked, g.repo, g.change);
      if result.None? {
        return doc;
      }
      findings := result.value.0;
    }
    findings := ApplyDisputes(g.repo, g.disputes, findings);
    next := Some(Review(g.change.base, findings));
  }

  // ---- ids stay distinct ---------------------------------------------------------------------

  lemma {:induction false} PriorKeepsIds(repo: Repo, disputes: Disputes, findings: seq<Finding>)
    requires DistinctIds(findings)
    ensures DistinctIds(PriorBlocking(repo, disputes, findings))
  {
    if findings != [] {
      var rest, last := findings[..|findings| - 1], findings[|findings| - 1];
      PriorKeepsIds(repo, disputes, rest);
      var prior := PriorBlocking(repo, disputes, rest);
      forall i | 0 <= i < |prior| ensures prior[i].id != last.id {
        assert prior[i] in rest;
      }
    }
  }

  lemma GenerateKeepsIds(doc: Option<Review>, g: Generation)
    requires doc.Some? ==> DistinctIds(doc.value.findings)
    ensures Generate(doc, g).Some? ==> DistinctIds(Generate(doc, g).value.findings)
  {
    var prior, read := PriorOf(doc, g), Read(doc, g);
    if doc.Some? {
      PriorKeepsIds(g.repo, g.disputes, doc.value.findings);
    }
    if read.Some? {
      CarryingKeepsIds(prior, g.repo, g.change.head);
      MarkingKeepsIds(g.repo, g.disputes, read.value);
    }
  }

  lemma CarryingKeepsIds(prior: seq<Finding>, repo: Repo, commit: string)
    ensures DistinctIds(prior) ==> DistinctIds(Carried(prior, repo, commit))
  {
    var carried := Carried(prior, repo, commit);
    assert forall i :: 0 <= i < |prior| ==> carried[i].id == prior[i].id;
  }

  lemma MarkingKeepsIds(repo: Repo, disputes: Disputes, findings: seq<Finding>)
    ensures DistinctIds(findings) ==> DistinctIds(Disputing(repo, disputes, findings))
  {
    var marked := Disputing(repo, disputes, findings);
    assert forall i :: 0 <= i < |findings| ==> marked[i].id == findings[i].id;
  }

  lemma FindIs(findings: seq<Finding>, f: Finding)
    requires DistinctIds(findings) && f in findings
    ensures Find(findings, f.id) == Some(f)
  {
  }

  // ---- one generation --------------------------------------------------------------------------

  /** The finding still holds acceptance shut, at no lower severity. */
  predicate Stays(f: Finding, doc: Option<Review>) {
    doc.Some? && exists g :: g in doc.value.findings && g.id == f.id && HoldsAcceptance(g) && NoLess(g.severity, f.severity)
  }

  predicate ClosedIn(f: Finding, doc: Option<Review>, commit: string) {
    doc.Some? && exists g :: g in doc.value.findings && g.id == f.id && g.standing == Resolved(commit) && !g.blocking
  }

  predicate DisputedIn(f: Finding, doc: Option<Review>) {
    doc.Some? && exists g :: g in doc.value.findings && g.id == f.id && g.standing == Disputed
  }

  /** It holds acceptance shut in a document about this base, and its severity is one the policy knows. */
  predicate Holding(f: Finding, doc: Option<Review>, g: Generation) {
    && doc.Some? && DistinctIds(doc.value.findings) && f in doc.value.findings && HoldsAcceptance(f)
    && f.severity in {"high", "critical"}
    && doc.value.base == g.change.base != ""
  }

  lemma Reaches(doc: Option<Review>, g: Generation, f: Finding)
    requires Read(doc, g).Some? && f in Read(doc, g).value
    ensures ApplyDispute(g.repo, g.disputes, f) in Generate(doc, g).value.findings
  {
    var read := Read(doc, g).value;
    var i :| 0 <= i < |read| && read[i] == f;
    assert Disputing(g.repo, g.disputes, read)[i] == ApplyDispute(g.repo, g.disputes, f);
  }

  /** A restated finding: what the answer calls it now, at no lower severity than it was carried at. */
  lemma RestatedIsOpen(doc: Option<Review>, g: Generation, f: Finding) returns (again: Finding)
    requires Holding(f, doc, g) && f in PriorOf(doc, g)
    requires g.asked != {} && Read(doc, g).Some? && Restates(g.answer, f.id)
    ensures again in Read(doc, g).value && again.id == f.id && HoldsAcceptance(again) && NoLess(again.severity, f.severity)
  {
    var prior := PriorOf(doc, g);
    PriorKeepsIds(g.repo, g.disputes, doc.value.findings);
    FindIs(prior, f);
    var i :| 0 <= i < |g.answer| && g.answer[i].Said? && g.answer[i].id == f.id;
    assert MayState(g.answer[i], prior, g.asked, g.repo, g.change.head);
    again := Opened(g.answer[i], prior, g.change);
    assert again in Stated(g.answer, prior, g.change);
  }

  /** The finding a generation leaves under this id, before disputes are marked. */
  lemma WhatIsRead(doc: Option<Review>, g: Generation, f: Finding) returns (next: Finding)
    requires Holding(f, doc, g) && f in PriorOf(doc, g) && Read(doc, g).Some?
    ensures next in Read(doc, g).value && next.id == f.id
    ensures (HoldsAcceptance(next) && NoLess(next.severity, f.severity))
            || (Closes(f, g.repo, g.change.head) && next == Close(f, g.change.head))
    ensures !Closes(f, g.repo, g.change.head) || (g.asked != {} && Restates(g.answer, f.id)) ==> HoldsAcceptance(next)
    ensures Closes(f, g.repo, g.change.head) && (g.asked == {} || !Restates(g.answer, f.id)) ==> next == Close(f, g.change.head)
  {
    var prior := PriorOf(doc, g);
    var i :| 0 <= i < |prior| && prior[i] == f;
    if g.asked == {} {
      next := Carried(prior, g.repo, g.change.head)[i];
    } else if Restates(g.answer, f.id) {
      next := RestatedIsOpen(doc, g, f);
    } else {
      assert Restates(g.answer, prior[i].id) || Closes(prior[i], g.repo, g.change.head);
      next := Close(f, g.change.head);
      assert next in Closed(prior, g.answer, g.repo, g.change.head);
    }
  }

  /** Whatever the reviewer answers, a finding that holds acceptance shut stays, as severe as it was;
      or the code closes it, and the document says it is resolved; or a person's dispute, live on that
      very text, is on it. */
  lemma GenerationKeeps(doc: Option<Review>, g: Generation, f: Finding)
    requires Holding(f, doc, g)
    ensures Stays(f, Generate(doc, g))
            || (Closes(f, g.repo, g.change.head) && ClosedIn(f, Generate(doc, g), g.change.head))
            || LiveDispute(g.repo, g.disputes, f)
            || DisputedIn(f, Generate(doc, g))
  {
    if Read(doc, g).None? {
      assert Stays(f, doc);
    } else if !LiveDispute(g.repo, g.disputes, f) {
      assert f in PriorOf(doc, g);
      var next := WhatIsRead(doc, g, f);
      Reaches(doc, g, next);
      var marked := ApplyDispute(g.repo, g.disputes, next);
      assert marked in Generate(doc, g).value.findings && marked.id == f.id;
    }
  }

  /** What the next document still holds open under its id is as severe: critical stays critical, and high
      becomes nothing less than high. */
  lemma NeverLessSevere(doc: Option<Review>, g: Generation, f: Finding, h: Finding)
    requires Holding(f, doc, g) && !LiveDispute(g.repo, g.disputes, f)
    requires h in Generate(doc, g).value.findings && h.id == f.id && h.standing == Open
    ensures f.severity == "critical" ==> h.severity == "critical"
    ensures f.severity == "high" ==> h.severity in {"high", "critical"}
  {
    GenerateKeepsIds(doc, g);
    if Read(doc, g).None? {
      FindIs(doc.value.findings, h);
      FindIs(doc.value.findings, f);
    } else {
      var next := WhatIsRead(doc, g, f);
      Reaches(doc, g, next);
      FindIs(Generate(doc, g).value.findings, h);
      FindIs(Generate(doc, g).value.findings, ApplyDispute(g.repo, g.disputes, next));
    }
  }

  /** And what a reading states stands under a review that was asked for, or under its own when it was carried. */
  lemma StatedUnderItsReview(doc: Option<Review>, g: Generation, h: Finding)
    requires doc.Some? ==> DistinctIds(doc.value.findings)
    requires Read(doc, g).Some? && g.asked != {} && h in Read(doc, g).value && h.standing == Open
    ensures NotCarried(doc, g, h.id) ==> h.firstSeen == Some(g.change)
    ensures forall p :: p in PriorOf(doc, g) && p.id == h.id ==> h.firstSeen == if p.firstSeen.Some? then p.firstSeen else Some(g.change)
    ensures h.review in g.asked || exists p :: p in PriorOf(doc, g) && p.id == h.id && p.review == h.review
    ensures h.blocking <==> h.severity in {"high", "critical"}
    ensures h.severity in {"low", "medium", "high", "critical"}
  {
    var prior := PriorOf(doc, g);
    if doc.Some? {
      PriorKeepsIds(g.repo, g.disputes, doc.value.findings);
    }
    forall p | p in prior && p.id == h.id ensures Find(prior, h.id) == Some(p) {
      FindIs(prior, p);
    }
    assert h !in Closed(prior, g.answer, g.repo, g.change.head);
    var i :| 0 <= i < |g.answer| && g.answer[i].Said? && h == Opened(g.answer[i], prior, g.change);
    assert MayState(g.answer[i], prior, g.asked, g.repo, g.change.head);
    SeveritiesInOrder(h.severity, "low");
  }

  /** And it is closed exactly when it is left out and git showed nothing that keeps it. */
  lemma ClosedExactly(doc: Option<Review>, g: Generation, f: Finding)
    requires Holding(f, doc, g) && Read(doc, g).Some? && !LiveDispute(g.repo, g.disputes, f)
    ensures ClosedIn(f, Generate(doc, g), g.change.head)
            <==> Closes(f, g.repo, g.change.head) && (g.asked == {} || !Restates(g.answer, f.id))
  {
    var next := WhatIsRead(doc, g, f);
    Reaches(doc, g, next);
    GenerateKeepsIds(doc, g);
    var marked := ApplyDispute(g.repo, g.disputes, next);
    assert next == Close(f, g.change.head) ==> !LiveDispute(g.repo, g.disputes, next);
    FindIs(Generate(doc, g).value.findings, marked);
    forall h | h in Generate(doc, g).value.findings && h.id == f.id ensures h == marked {
      FindIs(Generate(doc, g).value.findings, h);
    }
  }

  /** So with every call answered it is closed only when its code is gone ... */
  lemma ClosedExactlyWhenGone(doc: Option<Review>, g: Generation, f: Finding)
    requires Holding(f, doc, g) && Read(doc, g).Some? && !LiveDispute(g.repo, g.disputes, f) && Answered(f, g.repo)
    ensures ClosedIn(f, Generate(doc, g), g.change.head)
            <==> Gone(f, g.repo, g.change.head) && (g.asked == {} || !Restates(g.answer, f.id))
  {
    ClosedExactly(doc, g, f);
    AnsweredClosesTheGone(f, g.repo, g.change.head);
  }

  /** ... and otherwise a finding left out while its code stands is closed exactly when no anchor whose
      lines are there was answered for, and the others can be read. */
  lemma ClosedThoughThere(doc: Option<Review>, g: Generation, f: Finding)
    requires Holding(f, doc, g) && Read(doc, g).Some? && !LiveDispute(g.repo, g.disputes, f)
    requires f.anchors != [] && !Gone(f, g.repo, g.change.head) && !Restates(g.answer, f.id)
    ensures ClosedIn(f, Generate(doc, g), g.change.head) <==>
              && (forall k :: 0 <= k < |f.anchors| ==> Readable(g.repo, f.anchors[k]))
              && (forall k :: 0 <= k < |f.anchors| && StillThere(g.repo, g.change.head, f.anchors[k]) ==> (f.id, k) in g.repo.unanswered)
  {
    ClosedExactly(doc, g, f);
    ClosesThoughThere(f, g.repo, g.change.head);
    if forall k :: 0 <= k < |f.anchors| ==> Readable(g.repo, f.anchors[k]) {
      assert exists k :: 0 <= k < |f.anchors| && StillThere(g.repo, g.change.head, f.anchors[k]);
    }
  }

  const SOME_FINDING: Finding :=
    Finding("F-001", "security", "high", "scenario", [Anchor("p", "b", 1, 1)], true, Open, None)

  /** A tree that holds the one line the finding names, and a git that does not answer for it, or does. */
  function SomeRepo(answers: bool): Repo {
    Repo(map["b" := ["x"]], map["h" := map["p" := File("b", ["x"], 1)]], if answers then {} else {("F-001", 0)})
  }

  /** For example: the reviewer says nothing, git says nothing, and the finding is resolved. */
  lemma ResolvedByASilentGit() returns (doc: Option<Review>, g: Generation)
    ensures doc == Some(Review("base", [SOME_FINDING])) && g.answer == [] && g.disputes == map[]
    ensures Holding(SOME_FINDING, doc, g) && StillThere(g.repo, g.change.head, SOME_FINDING.anchors[0])
    ensures Generate(doc, g) == Some(Review("base", [Close(SOME_FINDING, "h")]))
    ensures Generate(doc, g.(repo := SomeRepo(true))) == doc
  {
    doc := Some(Review("base", [SOME_FINDING]));
    g := Generation(SomeRepo(false), Change("base", "h"), map[], {"security"}, []);
    SomeLine(false);
    SilentCloses(doc, g);
    AnsweredRefuses(doc, g.(repo := SomeRepo(true)));
  }

  lemma SomeLine(answers: bool)
    ensures AnchoredLines(SomeRepo(answers), SOME_FINDING.anchors[0]) == Some(["x"])
    ensures StillThere(SomeRepo(answers), "h", SOME_FINDING.anchors[0])
    ensures Closes(SOME_FINDING, SomeRepo(answers), "h") <==> !answers
  {
    assert ["x"][0..1] == ["x"];
    assert RunAt(["x"], ["x"], 0);
    assert Passes(SOME_FINDING, SomeRepo(answers), "h", 0) <==> !answers;
  }

  lemma PriorOfOne(doc: Option<Review>, g: Generation)
    requires doc == Some(Review("base", [SOME_FINDING])) && g.change.base == "base" && g.disputes == map[]
    ensures PriorOf(doc, g) == [SOME_FINDING]
  {
    assert [SOME_FINDING][..0] == [];
    assert PriorBlocking(g.repo, g.disputes, []) == [];
    assert HoldsAcceptance(SOME_FINDING) && !LiveDispute(g.repo, g.disputes, SOME_FINDING);
  }

  lemma SilentCloses(doc: Option<Review>, g: Generation)
    requires doc == Some(Review("base", [SOME_FINDING]))
    requires g == Generation(SomeRepo(false), Change("base", "h"), map[], {"security"}, [])
    ensures Generate(doc, g) == Some(Review("base", [Close(SOME_FINDING, "h")]))
  {
    SomeLine(false);
    PriorOfOne(doc, g);
    var prior, closed := [SOME_FINDING], [Close(SOME_FINDING, "h")];
    assert prior[..0] == [] && Closed([], [], g.repo, "h") == [];
    assert Closed(prior, [], g.repo, "h") == closed;
    assert Stated([], prior, g.change) + closed == closed;
    assert Read(doc, g) == Some(closed);
    assert closed[..0] == [] && Disputing(g.repo, g.disputes, closed) == closed;
  }

  lemma AnsweredRefuses(doc: Option<Review>, g: Generation)
    requires doc == Some(Review("base", [SOME_FINDING]))
    requires g == Generation(SomeRepo(true), Change("base", "h"), map[], {"security"}, [])
    ensures Generate(doc, g) == doc
  {
    SomeLine(true);
    PriorOfOne(doc, g);
    assert !Restates([], [SOME_FINDING][0].id) && !Closes([SOME_FINDING][0], g.repo, "h");
    assert !Accepts(g.answer, [SOME_FINDING], g.asked, g.repo, g.change);
  }

  // ---- any number of generations --------------------------------------------------------------------

  function Life(doc: Option<Review>, gens: seq<Generation>): Option<Review> {
    if gens == [] then doc else Generate(Life(doc, gens[..|gens| - 1]), gens[|gens| - 1])
  }

  /** What the last document calls the finding. */
  function LastStated(doc: Option<Review>, id: string): Option<Finding> {
    if doc.None? then None else Find(doc.value.findings, id)
  }

  /** In no generation so far did the code close the finding, as last stated, or was a dispute live on
      it as it was carried or as it was stated again; and the base stayed the same. */
  predicate NothingAnswered(doc: Option<Review>, gens: seq<Generation>, id: string) {
    gens == [] ||
    var before, g := gens[..|gens| - 1], gens[|gens| - 1];
    var carried, after := LastStated(Life(doc, before), id), LastStated(Life(doc, gens), id);
    && NothingAnswered(doc, before, id)
    && g.change.base != "" && doc.Some? && g.change.base == doc.value.base
    && (carried.Some? ==> !Closes(carried.value, g.repo, g.change.head) && !LiveDispute(g.repo, g.disputes, carried.value))
    && (after.Some? ==> !LiveDispute(g.repo, g.disputes, after.value))
  }

  lemma DisputedOnlyLive(doc: Option<Review>, g: Generation, f: Finding)
    requires Holding(f, doc, g) && !LiveDispute(g.repo, g.disputes, f) && !Closes(f, g.repo, g.change.head)
    requires LastStated(Generate(doc, g), f.id).Some? ==> !LiveDispute(g.repo, g.disputes, LastStated(Generate(doc, g), f.id).value)
    ensures Stays(f, Generate(doc, g))
  {
    if Read(doc, g).None? {
      assert Stays(f, doc);
    } else {
      assert f in PriorOf(doc, g);
      var next := WhatIsRead(doc, g, f);
      Reaches(doc, g, next);
      GenerateKeepsIds(doc, g);
      var marked := ApplyDispute(g.repo, g.disputes, next);
      FindIs(Generate(doc, g).value.findings, marked);
    }
  }

  /** Across any number of generations about one base and any answers, an open finding at the floor or
      above is still there, blocking, at a severity never below the one it was carried at, until the code
      closes it or a person contradicts it. */
  lemma {:induction false} StaysUntilAnswered(doc: Option<Review>, gens: seq<Generation>, f: Finding)
    requires doc.Some? && DistinctIds(doc.value.findings) && f in doc.value.findings
    requires HoldsAcceptance(f) && f.severity in {"high", "critical"}
    requires NothingAnswered(doc, gens, f.id)
    ensures Life(doc, gens).Some? && DistinctIds(Life(doc, gens).value.findings) && Life(doc, gens).value.base == doc.value.base
    ensures Stays(f, Life(doc, gens))
  {
    if gens != [] {
      var before, g := gens[..|gens| - 1], gens[|gens| - 1];
      StaysUntilAnswered(doc, before, f);
      var now := Life(doc, before);
      var carried :| carried in now.value.findings && carried.id == f.id && HoldsAcceptance(carried) && NoLess(carried.severity, f.severity);
      FindIs(now.value.findings, carried);
      GenerateKeepsIds(now, g);
      DisputedOnlyLive(now, g, carried);
    }
  }

  /** In no generation so far was the code that the finding, as last stated, named gone, or git silent
      about any of it, or a dispute live. */
  predicate NothingGone(doc: Option<Review>, gens: seq<Generation>, id: string) {
    gens == [] ||
    var before, g := gens[..|gens| - 1], gens[|gens| - 1];
    var carried, after := LastStated(Life(doc, before), id), LastStated(Life(doc, gens), id);
    && NothingGone(doc, before, id)
    && g.change.base != "" && doc.Some? && g.change.base == doc.value.base
    && (carried.Some? ==> Answered(carried.value, g.repo) && !Gone(carried.value, g.repo, g.change.head)
                          && !LiveDispute(g.repo, g.disputes, carried.value))
    && (after.Some? ==> !LiveDispute(g.repo, g.disputes, after.value))
  }

  /** While git answers for every anchor, it stays until the code it named is gone or a person contradicts it. */
  lemma {:induction false} StaysUntilGone(doc: Option<Review>, gens: seq<Generation>, f: Finding)
    requires doc.Some? && DistinctIds(doc.value.findings) && f in doc.value.findings
    requires HoldsAcceptance(f) && f.severity in {"high", "critical"}
    requires NothingGone(doc, gens, f.id)
    ensures NothingAnswered(doc, gens, f.id) && Stays(f, Life(doc, gens))
  {
    if gens != [] {
      var before, g := gens[..|gens| - 1], gens[|gens| - 1];
      StaysUntilGone(doc, before, f);
      var carried := LastStated(Life(doc, before), f.id);
      if carried.Some? {
        AnsweredClosesTheGone(carried.value, g.repo, g.change.head);
      }
    }
    StaysUntilAnswered(doc, gens, f);
  }

  /** In no generation so far did the finding, as last stated, name any code; and the base stayed the same. */
  predicate NamesNoCode(doc: Option<Review>, gens: seq<Generation>, id: string) {
    (LastStated(Life(doc, gens), id).Some? ==> LastStated(Life(doc, gens), id).value.anchors == []) &&
    (gens == [] ||
     (NamesNoCode(doc, gens[..|gens| - 1], id) && gens[|gens| - 1].change.base != "" && doc.Some?
      && gens[|gens| - 1].change.base == doc.value.base))
  }

  /** A finding without anchors is never closed by itself, whatever becomes of the tree: it stays. */
  lemma {:induction false} UnanchoredNeverCloses(doc: Option<Review>, gens: seq<Generation>, f: Finding)
    requires doc.Some? && DistinctIds(doc.value.findings) && f in doc.value.findings
    requires HoldsAcceptance(f) && f.severity in {"high", "critical"}
    requires NamesNoCode(doc, gens, f.id)
    ensures NothingAnswered(doc, gens, f.id) && Stays(f, Life(doc, gens))
  {
    if gens != [] {
      UnanchoredNeverCloses(doc, gens[..|gens| - 1], f);
    }
    StaysUntilAnswered(doc, gens, f);
  }

  // ---- what just was stated is there -----------------------------------------------------------------------

  lemma RunIsThere(lines: seq<string>, from: nat, upTo: nat)
    requires from <= upTo <= |lines|
    ensures ContainsRun(lines, lines[from..upTo])
  {
    assert RunAt(lines, lines[from..upTo], from);
  }

  /** An anchor a reading accepts can be read back exactly when it names its blob and stays within the
      file's lines; and then the code it names is there. */
  lemma AcceptedAnchors(repo: Repo, commit: string, anchor: Anchor, file: File)
    requires ValidAnchor(repo, commit, anchor) && file == repo.At(commit)[anchor.path]
    requires file.blob in repo.blobs && repo.blobs[file.blob] == file.lines && file.blob != ""
    ensures AnchoredLines(repo, anchor) ==
            if anchor.blob != "" && anchor.end <= |file.lines| then Some(file.lines[anchor.start - 1..anchor.end]) else None
    ensures AnchoredLines(repo, anchor).Some? && anchor.path != "" ==> StillThere(repo, commit, anchor)
  {
    if anchor.blob != "" && anchor.end <= |file.lines| {
      RunIsThere(file.lines, anchor.start - 1, anchor.end);
    }
  }

  /** The policy counts one line more than a file that ends in a newline has: for example, an anchor on
      it is accepted and cannot be read back, so that its finding never closes by itself. */
  lemma AcceptedBeyondTheEnd()
    ensures ValidAnchor(SomeRepo(true), "h", Anchor("p", "b", 2, 2))
    ensures AnchoredLines(SomeRepo(true), Anchor("p", "b", 2, 2)) == None
    ensures forall f: Finding :: f.anchors == [Anchor("p", "b", 2, 2)] ==> !Closes(f, SomeRepo(true), "h")
  {
    forall f: Finding | f.anchors == [Anchor("p", "b", 2, 2)]
      ensures !Closes(f, SomeRepo(true), "h")
    {
      assert !Passes(f, SomeRepo(true), "h", 0);
    }
  }

  // ---- when a dispute lapses --------------------------------------------------------------------------------

  /** Git names an object by its content: what two readings both find under a name is the same. */
  predicate SameObjects(a: Repo, b: Repo) {
    forall blob :: blob in a.blobs && blob in b.blobs ==> a.blobs[blob] == b.blobs[blob]
  }

  lemma {:induction false} TextStays(a: Repo, b: Repo, anchors: seq<Anchor>)
    requires SameObjects(a, b) && AnchoredText(a, anchors).Some?
    ensures AnchoredText(b, anchors) ==
            if forall k :: 0 <= k < |anchors| ==> anchors[k].blob in b.blobs then AnchoredText(a, anchors) else None
  {
    if anchors != [] {
      var rest, last := anchors[..|anchors| - 1], anchors[|anchors| - 1];
      TextStays(a, b, rest);
      assert forall k :: 0 <= k < |rest| ==> rest[k] == anchors[k];
      if forall k :: 0 <= k < |rest| ==> rest[k].blob in b.blobs {
        assert (forall k :: 0 <= k < |anchors| ==> anchors[k].blob in b.blobs) <==> last.blob in b.blobs;
      }
    }
  }

  /** A dispute bound to the text a finding named lapses exactly when an object it was read from is gone,
      whatever becomes of the tree ... */
  lemma LapsesExactlyWhenUnreadable(a: Repo, b: Repo, disputes: Disputes, f: Finding)
    requires SameObjects(a, b) && LiveDispute(a, disputes, f)
    ensures LiveDispute(b, disputes, f) <==> forall k :: 0 <= k < |f.anchors| ==> f.anchors[k].blob in b.blobs
  {
    TextStays(a, b, f.anchors);
  }

  lemma {:induction false} TextIgnoresTheTree(a: Repo, b: Repo, anchors: seq<Anchor>)
    requires a.blobs == b.blobs
    ensures AnchoredText(a, anchors) == AnchoredText(b, anchors)
  {
    if anchors != [] {
      TextIgnoresTheTree(a, b, anchors[..|anchors| - 1]);
    }
  }

  /** ... and no edit retires one, or sets one off: commits have no part in it. */
  lemma EditsRetireNoDispute(a: Repo, b: Repo, disputes: Disputes, f: Finding)
    requires a.blobs == b.blobs
    ensures LiveDispute(a, disputes, f) <==> LiveDispute(b, disputes, f)
  {
    TextIgnoresTheTree(a, b, f.anchors);
  }

  /** A reading leaves nothing disputed before the records are looked up. */
  lemma ReadUndisputed(doc: Option<Review>, g: Generation, f: Finding)
    requires Read(doc, g).Some? && f in Read(doc, g).value
    ensures f.standing != Disputed
  {
    var prior, read := PriorOf(doc, g), Read(doc, g).value;
    if g.asked == {} {
      var k :| 0 <= k < |read| && read[k] == f;
      assert prior[k] in prior && HoldsAcceptance(prior[k]);
    } else {
      assert f in Stated(g.answer, prior, g.change) || f in Closed(prior, g.answer, g.repo, g.change.head);
    }
  }

  /** What a reading marks disputed, a record binds to its own text. */
  lemma MarkedIsLive(doc: Option<Review>, g: Generation, h: Finding)
    requires Read(doc, g).Some? && h in Generate(doc, g).value.findings && h.standing == Disputed
    ensures LiveDispute(g.repo, g.disputes, h)
  {
    var f := ReadAs(doc, g, h);
    ReadUndisputed(doc, g, f);
  }

  /** What it was before the records were looked up. */
  lemma ReadAs(doc: Option<Review>, g: Generation, h: Finding) returns (f: Finding)
    requires Read(doc, g).Some? && h in Generate(doc, g).value.findings
    ensures f in Read(doc, g).value && h == ApplyDispute(g.repo, g.disputes, f) && h.id == f.id
  {
    var read := Read(doc, g).value;
    var marked := Disputing(g.repo, g.disputes, read);
    var i :| 0 <= i < |marked| && marked[i] == h;
    f := read[i];
  }

  // ---- after a dispute --------------------------------------------------------------------------------------

  /** The reviewer is not held to anything of this id. */
  predicate NotCarried(doc: Option<Review>, g: Generation, id: string) {
    forall p :: p in PriorOf(doc, g) ==> p.id != id
  }

  /** A finding of the last document is carried exactly when that is about the same base, the finding held
      acceptance shut in it, and no dispute is live on it. */
  lemma CarriedExactly(doc: Option<Review>, g: Generation, f: Finding)
    requires doc.Some? && DistinctIds(doc.value.findings) && f in doc.value.findings
    ensures !NotCarried(doc, g, f.id) <==>
              doc.value.base == g.change.base != "" && HoldsAcceptance(f) && !LiveDispute(g.repo, g.disputes, f)
  {
    forall p | p in PriorOf(doc, g) && p.id == f.id ensures p == f {
      FindIs(doc.value.findings, p);
      FindIs(doc.value.findings, f);
    }
  }

  /** What a reading leaves under an id that was not carried is what its answer states of it. */
  lemma LeftToTheAnswer(doc: Option<Review>, g: Generation, h: Finding)
    requires NotCarried(doc, g, h.id) && Read(doc, g).Some?
    ensures h in Read(doc, g).value <==>
              g.asked != {} && exists i :: 0 <= i < |g.answer| && g.answer[i].Said? && h == Opened(g.answer[i], PriorOf(doc, g), g.change)
  {
    var prior := PriorOf(doc, g);
    var carried := Carried(prior, g.repo, g.change.head);
    forall c | c in carried ensures c.id != h.id {
      var i :| 0 <= i < |carried| && carried[i] == c;
      assert prior[i] in prior;
    }
    forall c | c in Closed(prior, g.answer, g.repo, g.change.head) ensures c.id != h.id {
      var i :| 0 <= i < |prior| && c == Close(prior[i], g.change.head);
      assert prior[i] in prior;
    }
  }

  /** What is not carried is in the next document exactly when a reviewer was asked and states it. */
  lemma ComesBackIff(doc: Option<Review>, g: Generation, id: string)
    requires NotCarried(doc, g, id) && Read(doc, g).Some?
    ensures (exists h :: h in Generate(doc, g).value.findings && h.id == id) <==> g.asked != {} && Restates(g.answer, id)
  {
    if h :| h in Generate(doc, g).value.findings && h.id == id {
      var f := ReadAs(doc, g, h);
      LeftToTheAnswer(doc, g, f);
    }
    if g.asked != {} && Restates(g.answer, id) {
      var i :| 0 <= i < |g.answer| && g.answer[i].Said? && g.answer[i].id == id;
      var again := Opened(g.answer[i], PriorOf(doc, g), g.change);
      LeftToTheAnswer(doc, g, again);
      Reaches(doc, g, again);
    }
  }

  /** So a finding a person disputed, marked by an earlier reading or disputed since the last one, is in the
      next document exactly when it is stated again, whatever the tree and the record are by then. */
  lemma DisputedComesBackIff(doc: Option<Review>, g: Generation, f: Finding)
    requires doc.Some? && DistinctIds(doc.value.findings) && f in doc.value.findings
    requires f.standing == Disputed || LiveDispute(g.repo, g.disputes, f)
    requires Read(doc, g).Some?
    ensures (exists h :: h in Generate(doc, g).value.findings && h.id == f.id) <==> g.asked != {} && Restates(g.answer, f.id)
  {
    CarriedExactly(doc, g, f);
    ComesBackIff(doc, g, f.id);
  }

  /** And of any finding the last document holds, about the same base: it is in the next one exactly when
      it held acceptance shut with no dispute live on it, or is stated again. */
  lemma KeptExactly(doc: Option<Review>, g: Generation, f: Finding)
    requires doc.Some? && DistinctIds(doc.value.findings) && f in doc.value.findings
    requires doc.value.base == g.change.base != "" && Read(doc, g).Some?
    ensures (exists h :: h in Generate(doc, g).value.findings && h.id == f.id) <==>
              (HoldsAcceptance(f) && !LiveDispute(g.repo, g.disputes, f)) || (g.asked != {} && Restates(g.answer, f.id))
  {
    CarriedExactly(doc, g, f);
    if NotCarried(doc, g, f.id) {
      ComesBackIff(doc, g, f.id);
    } else {
      var h := WhatCarriesOn(doc, g, f);
      Reaches(doc, g, h);
    }
  }

  /** What is carried is read again under its id: restated, closed or as it was. */
  lemma WhatCarriesOn(doc: Option<Review>, g: Generation, f: Finding) returns (next: Finding)
    requires f in PriorOf(doc, g) && Read(doc, g).Some?
    ensures next in Read(doc, g).value && next.id == f.id
  {
    var prior := PriorOf(doc, g);
    var i :| 0 <= i < |prior| && prior[i] == f;
    if g.asked == {} {
      next := Carried(prior, g.repo, g.change.head)[i];
    } else if Restates(g.answer, f.id) {
      var k :| 0 <= k < |g.answer| && g.answer[k].Said? && g.answer[k].id == f.id;
      next := Opened(g.answer[k], prior, g.change);
      assert next in Stated(g.answer, prior, g.change);
    } else {
      assert Restates(g.answer, prior[i].id) || Closes(prior[i], g.repo, g.change.head);
      next := Close(f, g.change.head);
      assert next in Closed(prior, g.answer, g.repo, g.change.head);
    }
  }

  /** And what comes back uncarried holds acceptance shut exactly when it is stated at a blocking severity
      and no dispute is live on it as stated: the severity it was disputed at does not bind. */
  lemma WhatComesBackHolds(doc: Option<Review>, g: Generation, h: Finding) returns (i: nat)
    requires NotCarried(doc, g, h.id) && Read(doc, g).Some? && h in Generate(doc, g).value.findings
    ensures i < |g.answer| && g.answer[i].Said? && g.answer[i].id == h.id
    ensures HoldsAcceptance(h) <==>
              Blocks(g.answer[i].severity) && !LiveDispute(g.repo, g.disputes, Opened(g.answer[i], PriorOf(doc, g), g.change))
  {
    var f := ReadAs(doc, g, h);
    LeftToTheAnswer(doc, g, f);
    i :| 0 <= i < |g.answer| && g.answer[i].Said? && f == Opened(g.answer[i], PriorOf(doc, g), g.change);
  }

  // ---- for example: stated, disputed, edited, forgotten ---------------------------------------------------------

  const TWO_ANCHORS: seq<Anchor> := [Anchor("p", "b", 1, 1), Anchor("q", "c", 1, 1)]
  const TWO_TEXTS: seq<seq<string>> := [["p", "x"], ["q", "z"]]
  const TWO_PLACES: Finding :=
    Finding("F-001", "security", "high", "scenario", TWO_ANCHORS, true, Open, Some(Change("base", "h1")))

  /** Two commits: the second one edits the line of p and leaves the line of q. */
  const EDITED: Repo :=
    Repo(map["b" := ["x"], "c" := ["z"], "d" := ["y"]],
         map["h1" := map["p" := File("b", ["x"], 1), "q" := File("c", ["z"], 1)],
             "h2" := map["p" := File("d", ["y"], 1), "q" := File("c", ["z"], 1)]],
         {})

  lemma TwoLines()
    ensures AnchoredLines(EDITED, TWO_ANCHORS[0]) == Some(["x"]) && AnchoredLines(EDITED, TWO_ANCHORS[1]) == Some(["z"])
  {
    assert ["x"][0..1] == ["x"] && ["z"][0..1] == ["z"];
  }

  function TextOf(repo: Repo, anchor: Anchor): seq<string>
    requires AnchoredLines(repo, anchor).Some?
  {
    [anchor.path] + AnchoredLines(repo, anchor).value
  }

  lemma TextOfTwo(repo: Repo, one: Anchor, two: Anchor)
    requires Readable(repo, one) && Readable(repo, two)
    ensures AnchoredText(repo, [one, two]) == Some([TextOf(repo, one), TextOf(repo, two)])
  {
    assert [one, two][..1] == [one] && [one][..0] == [];
    assert AnchoredText(repo, []) == Some([]);
    assert AnchoredText(repo, [one]) == Some([] + [TextOf(repo, one)]);
    assert [] + [TextOf(repo, one)] == [TextOf(repo, one)];
    assert [TextOf(repo, one)] + [TextOf(repo, two)] == [TextOf(repo, one), TextOf(repo, two)];
  }

  lemma TwoTexts()
    ensures AnchoredText(EDITED, TWO_ANCHORS) == Some(TWO_TEXTS)
  {
    TwoLines();
    TextOfTwo(EDITED, TWO_ANCHORS[0], TWO_ANCHORS[1]);
    assert ["p"] + ["x"] == ["p", "x"] && ["q"] + ["z"] == ["q", "z"];
  }

  lemma TwoTrees()
    ensures forall k :: 0 <= k < 2 ==> ValidAnchor(EDITED, "h1", TWO_ANCHORS[k])
    ensures !StillThere(EDITED, "h2", TWO_ANCHORS[0]) && StillThere(EDITED, "h2", TWO_ANCHORS[1])
  {
    TwoLines();
    assert RunAt(["z"], ["z"], 0);
    forall i | 0 <= i <= 0 ensures !RunAt(["y"], ["x"], i) {
      assert ["y"][0..1] == ["y"] && ["y"][0] != ["x"][0];
    }
  }

  /** A reading of the first commit states the finding ... */
  lemma StatedFirst(g: Generation)
    requires g == Generation(EDITED, Change("base", "h1"), map[], {"security"}, [Said("F-001", "security", "high", "scenario", TWO_ANCHORS)])
    ensures Generate(None, g) == Some(Review("base", [TWO_PLACES]))
  {
    MayBeStated(g.answer[0]);
    OneStated(g.answer, g.change);
    assert Closed([], g.answer, g.repo, "h1") == [] && [TWO_PLACES] + [] == [TWO_PLACES];
    assert Read(None, g) == Some([TWO_PLACES]);
    assert Disputing(g.repo, g.disputes, [TWO_PLACES]) == [TWO_PLACES];
  }

  lemma OneStated(answer: seq<Said>, change: Change)
    requires answer == [Said("F-001", "security", "high", "scenario", TWO_ANCHORS)] && change == Change("base", "h1")
    ensures Stated(answer, [], change) == [TWO_PLACES]
  {
    assert answer[..0] == [] && Stated([], [], change) == [];
  }

  lemma MayBeStated(said: Said)
    requires said == Said("F-001", "security", "high", "scenario", TWO_ANCHORS)
    ensures MayState(said, [], {"security"}, EDITED, "h1")
  {
    TwoTrees();
    assert said.id[..2] == "F-";
  }

  /** ... and one of the second, with the dispute recorded, says nothing and is taken at its word. */
  lemma ForgottenNext(doc: Option<Review>, g: Generation)
    requires doc == Some(Review("base", [TWO_PLACES]))
    requires g == Generation(EDITED, Change("base", "h2"), map["F-001" := TWO_TEXTS], {"security"}, [])
    ensures LiveDispute(g.repo, g.disputes, TWO_PLACES) && Generate(doc, g) == Some(Review("base", []))
  {
    TwoTexts();
    assert LiveDispute(g.repo, g.disputes, TWO_PLACES);
    assert [TWO_PLACES][..0] == [] && PriorBlocking(g.repo, g.disputes, []) == [];
    assert PriorBlocking(g.repo, g.disputes, [TWO_PLACES]) == [] + [];
    assert PriorOf(doc, g) == [];
    assert Closed([], [], g.repo, "h2") == [] && Stated([], [], g.change) + [] == [];
  }

  /** Without the dispute that reading is refused: the code of q still stands. */
  lemma RefusedWithoutIt(doc: Option<Review>, g: Generation)
    requires doc == Some(Review("base", [TWO_PLACES]))
    requires g == Generation(EDITED, Change("base", "h2"), map[], {"security"}, [])
    ensures Generate(doc, g) == doc
  {
    TwoTrees();
    assert TWO_PLACES in PriorOf(doc, g);
    var i :| 0 <= i < |PriorOf(doc, g)| && PriorOf(doc, g)[i] == TWO_PLACES;
    assert !Passes(TWO_PLACES, g.repo, "h2", 1);
    assert !Restates([], TWO_PLACES.id) && !Closes(PriorOf(doc, g)[i], g.repo, "h2");
  }

  lemma LifeOfTwo(doc: Option<Review>, first: Generation, next: Generation)
    ensures Life(doc, [first]) == Generate(doc, first)
    ensures Life(doc, [first, next]) == Generate(Generate(doc, first), next)
  {
    assert [first][..0] == [] && [first, next][..1] == [first];
    assert Life(doc, []) == doc;
  }

  /** A finding about two places is stated; a person disputes it, by its own text; one of the places is
      edited and the other is not; the next reading says nothing. The dispute is still live, and the
      finding is in no document any more. Undisputed it would have stayed. */
  lemma EditedAndForgotten() returns (first: Generation, next: Generation)
    ensures first.disputes == map[] && Life(None, [first]) == Some(Review("base", [TWO_PLACES]))
    ensures AnchoredText(first.repo, TWO_PLACES.anchors).Some?
            && next.disputes == map["F-001" := AnchoredText(first.repo, TWO_PLACES.anchors).value]
    ensures first.repo == next.repo && next.answer == [] && Answered(TWO_PLACES, next.repo)
    ensures !StillThere(next.repo, next.change.head, TWO_ANCHORS[0]) && StillThere(next.repo, next.change.head, TWO_ANCHORS[1])
    ensures LiveDispute(next.repo, next.disputes, TWO_PLACES)
    ensures Life(None, [first, next]) == Some(Review("base", []))
    ensures Life(None, [first, next.(disputes := map[])]) == Life(None, [first])
  {
    first := Generation(EDITED, Change("base", "h1"), map[], {"security"}, [Said("F-001", "security", "high", "scenario", TWO_ANCHORS)]);
    next := Generation(EDITED, Change("base", "h2"), map["F-001" := TWO_TEXTS], {"security"}, []);
    var undisputed := next.(disputes := map[]);
    TwoTexts();
    TwoTrees();
    LifeOfTwo(None, first, next);
    LifeOfTwo(None, first, undisputed);
    StatedFirst(first);
    ForgottenNext(Life(None, [first]), next);
    RefusedWithoutIt(Life(None, [first]), undisputed);
  }
}
