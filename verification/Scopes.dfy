/** Path scopes (src/rein/common.py), and the scope of a launch that carries several tasks
    (`merged`, src/rein/dag.py). */
module Scopes {
  import opened Ids

  datatype Scope = Scope(includes: seq<string>, excludes: seq<string>)

  /** `pattern.rstrip("/")`. */
  function Stripped(pattern: string): string {
    if pattern != [] && pattern[|pattern| - 1] == '/' then Stripped(pattern[..|pattern| - 1]) else pattern
  }

  /** A pattern covers the path it names and everything beneath it; a trailing slash changes nothing. */
  predicate PathCovered(path: string, pattern: string) {
    var prefix := Stripped(pattern);
    prefix != "" && (path == prefix || prefix + "/" <= path)
  }

  lemma {:induction false} StrippedExactly(pattern: string)
    ensures Stripped(pattern) <= pattern
    ensures forall i :: |Stripped(pattern)| <= i < |pattern| ==> pattern[i] == '/'
    ensures Stripped(pattern) != "" ==> Stripped(pattern)[|Stripped(pattern)| - 1] != '/'
  {
    if pattern != [] && pattern[|pattern| - 1] == '/' {
      StrippedExactly(pattern[..|pattern| - 1]);
    }
  }

  /** Given with or without slashes behind it, a pattern that names a place covers that and what is beneath. */
  lemma CoveredExactly(path: string, place: string, slashes: string)
    requires place != "" && place[|place| - 1] != '/' && forall i :: 0 <= i < |slashes| ==> slashes[i] == '/'
    ensures PathCovered(path, place + slashes)
            <==> path == place || (|path| > |place| && path[..|place|] == place && path[|place|] == '/')
    ensures !PathCovered(path, slashes)
  {
    StrippedExactly(slashes);
    NothingToStrip(slashes);
    SlashesGo(place, slashes);
    if |path| > |place| && path[..|place|] == place && path[|place|] == '/' {
      assert path[..|place| + 1] == place + "/";
    }
  }

  lemma {:induction false} SlashesGo(place: string, slashes: string)
    requires place != "" && place[|place| - 1] != '/' && forall i :: 0 <= i < |slashes| ==> slashes[i] == '/'
    ensures Stripped(place + slashes) == place
  {
    if slashes == [] {
      assert place + slashes == place;
    } else {
      assert (place + slashes)[..|place + slashes| - 1] == place + slashes[..|slashes| - 1];
      SlashesGo(place, slashes[..|slashes| - 1]);
    }
  }

  lemma {:induction false} NothingToStrip(slashes: string)
    requires forall i :: 0 <= i < |slashes| ==> slashes[i] == '/'
    ensures Stripped(slashes) == ""
  {
    if slashes != [] {
      NothingToStrip(slashes[..|slashes| - 1]);
    }
  }

  predicate AnyCovers(path: string, patterns: seq<string>) {
    exists i :: 0 <= i < |patterns| && PathCovered(path, patterns[i])
  }

  /** The task may not touch the path: it is excluded, or the include list leaves it out. */
  predicate Outside(path: string, scope: Scope) {
    AnyCovers(path, scope.excludes) || (scope.includes != [] && !AnyCovers(path, scope.includes))
  }

  predicate Inside(path: string, scope: Scope) {
    !Outside(path, scope)
  }

  function OutsideOf(paths: seq<string>, scope: Scope): seq<string> {
    if paths == [] then []
    else OutsideOf(paths[..|paths| - 1], scope) +
         if Outside(paths[|paths| - 1], scope) then [paths[|paths| - 1]] else []
  }

  /** The paths a scope does not cover, sorted. */
  function OutsideScope(paths: seq<string>, scope: Scope): seq<string> {
    Sort(OutsideOf(paths, scope))
  }

  lemma {:induction false} OutsideScopeHolds(paths: seq<string>, scope: Scope, p: string)
    ensures p in OutsideScope(paths, scope) <==> p in paths && Outside(p, scope)
    ensures Outside(p, scope) <==>
              || (exists e :: e in scope.excludes && PathCovered(p, e))
              || (scope.includes != [] && forall i :: i in scope.includes ==> !PathCovered(p, i))
  {
    assert AnyCovers(p, scope.excludes) <==> exists e :: e in scope.excludes && PathCovered(p, e);
    assert AnyCovers(p, scope.includes) <==> exists i :: i in scope.includes && PathCovered(p, i);
    SortKeepsMembers(OutsideOf(paths, scope));
    if paths != [] {
      var rest := paths[..|paths| - 1];
      OutsideScopeHolds(rest, scope, p);
      SortKeepsMembers(OutsideOf(rest, scope));
      assert paths == rest + [paths[|paths| - 1]];
    }
  }

  // ---- merging -----------------------------------------------------------------------------

  /** `tuple(dict.fromkeys(values))`: each value once, where it first occurs. */
  function FirstSeen(values: seq<string>): seq<string> {
    if values == [] then []
    else
      var rest, last := values[..|values| - 1], values[|values| - 1];
      if last in rest then FirstSeen(rest) else FirstSeen(rest) + [last]
  }

  lemma {:induction false} FirstSeenHolds(values: seq<string>, v: string)
    ensures v in FirstSeen(values) <==> v in values
  {
    if values != [] {
      var rest, last := values[..|values| - 1], values[|values| - 1];
      assert values == rest + [last];
      FirstSeenHolds(rest, v);
    }
  }

  function Includes(members: seq<Scope>): seq<string> {
    if members == [] then [] else Includes(members[..|members| - 1]) + members[|members| - 1].includes
  }

  function Excludes(members: seq<Scope>): seq<string> {
    if members == [] then [] else Excludes(members[..|members| - 1]) + members[|members| - 1].excludes
  }

  lemma {:induction false} ListedByMembers(members: seq<Scope>, v: string)
    ensures v in Includes(members) <==> exists i :: 0 <= i < |members| && v in members[i].includes
    ensures v in Excludes(members) <==> exists i :: 0 <= i < |members| && v in members[i].excludes
  {
    if members != [] {
      ListedByMembers(members[..|members| - 1], v);
      assert members == members[..|members| - 1] + [members[|members| - 1]];
    }
  }

  predicate OutsideAll(path: string, members: seq<Scope>) {
    forall i :: 0 <= i < |members| ==> OutsideScope([path], members[i]) != []
  }

  function Kept(paths: seq<string>, members: seq<Scope>): seq<string> {
    if paths == [] then []
    else Kept(paths[..|paths| - 1], members) + if OutsideAll(paths[|paths| - 1], members) then [paths[|paths| - 1]] else []
  }

  lemma {:induction false} KeptHolds(paths: seq<string>, members: seq<Scope>, p: string)
    ensures p in Kept(paths, members) <==> p in paths && OutsideAll(p, members)
  {
    if paths != [] {
      var rest, last := paths[..|paths| - 1], paths[|paths| - 1];
      assert paths == rest + [last];
      KeptHolds(rest, members, p);
    }
  }

  /** One launch carrying several tasks: unbounded if any is, else every include; an exclude stays only
      where no member's own scope reaches. */
  function MergedScope(members: seq<Scope>): Scope {
    Scope(if exists i :: 0 <= i < |members| && members[i].includes == [] then [] else FirstSeen(Includes(members)),
          Kept(FirstSeen(Excludes(members)), members))
  }

  lemma OutsideAllHolds(path: string, members: seq<Scope>)
    ensures OutsideAll(path, members) <==> forall i :: 0 <= i < |members| ==> Outside(path, members[i])
  {
    forall i | 0 <= i < |members|
      ensures OutsideScope([path], members[i]) != [] <==> Outside(path, members[i])
    {
      OutsideScopeHolds([path], members[i], path);
      assert OutsideScope([path], members[i]) != [] ==> OutsideScope([path], members[i])[0] in [path] by {
        if OutsideScope([path], members[i]) != [] {
          OutsideScopeHolds([path], members[i], OutsideScope([path], members[i])[0]);
        }
      }
    }
  }

  lemma KeptExclude(members: seq<Scope>, e: string)
    ensures e in MergedScope(members).excludes <==>
              (exists i :: 0 <= i < |members| && e in members[i].excludes) &&
              (forall i :: 0 <= i < |members| ==> Outside(e, members[i]))
  {
    OutsideAllHolds(e, members);
    ListedByMembers(members, e);
    FirstSeenHolds(Excludes(members), e);
    KeptHolds(FirstSeen(Excludes(members)), members, e);
  }

  lemma KeptInclude(members: seq<Scope>, p: string)
    requires forall i :: 0 <= i < |members| ==> members[i].includes != []
    ensures p in MergedScope(members).includes <==> exists i :: 0 <= i < |members| && p in members[i].includes
  {
    ListedByMembers(members, p);
    FirstSeenHolds(Includes(members), p);
  }

  // ---- how covers nest ---------------------------------------------------------------------

  lemma {:induction false} StrippedFacts(p: string)
    ensures Stripped(p) <= p
    ensures Stripped(p) != "" ==> Stripped(p)[|Stripped(p)| - 1] != '/'
    ensures forall k :: |Stripped(p)| <= k < |p| ==> p[k] == '/'
    ensures Stripped(Stripped(p)) == Stripped(p)
  {
    if p != [] && p[|p| - 1] == '/' {
      StrippedFacts(p[..|p| - 1]);
    }
  }

  lemma CoversItself(p: string)
    requires Stripped(p) != ""
    ensures PathCovered(Stripped(p), p) && PathCovered(p, p)
  {
    StrippedFacts(p);
    if p != Stripped(p) {
      assert p[|Stripped(p)|] == '/';
      assert Stripped(p) + "/" <= p;
    }
  }

  /** What lies beneath a path lies beneath whatever covers that path. */
  lemma CoversThrough(x: string, e: string, p: string)
    requires PathCovered(x, e) && PathCovered(e, p)
    ensures PathCovered(x, p)
  {
    var s, t := Stripped(e), Stripped(p);
    StrippedFacts(e);
    StrippedFacts(p);
    if e != t {
      assert e[|t|] == '/' && e[..|t|] == t;
      assert e[|t| - 1] == t[|t| - 1];
      assert |t| <= |s|;
      assert s[..|t|] == e[..|s|][..|t|] == t;
      if |t| < |s| {
        assert s[|t|] == e[|t|];
        assert x[..|s|] == s;
        assert x[|t|] == '/' && x[..|t|] == x[..|s|][..|t|] == t;
        assert t + "/" <= x;
      }
    }
  }

  /** Of two patterns covering one path, one covers the other, or is the longer. */
  lemma CoversNest(x: string, e: string, p: string)
    requires PathCovered(x, e) && PathCovered(x, p)
    ensures |Stripped(p)| <= |Stripped(e)| ==> PathCovered(e, p)
    ensures |Stripped(p)| > |Stripped(e)| ==> PathCovered(Stripped(p), e)
    ensures |Stripped(p)| <= |x|
  {
    var s, t := Stripped(e), Stripped(p);
    StrippedFacts(e);
    StrippedFacts(p);
    assert x[..|s|] == s && x[..|t|] == t;
    if |t| <= |s| {
      assert s[..|t|] == t;
      if |t| < |s| {
        assert s[|t|] == x[|t|] == '/';
        assert e[..|s|] == s;
        assert e[|t|] == '/' && e[..|t|] == t;
        assert t + "/" <= e;
      } else {
        CoversItself(e);
      }
    } else {
      assert t[..|s|] == s && t[|s|] == x[|s|] == '/';
      assert s + "/" <= t;
    }
  }

  // ---- a launch may touch only what some member may ----------------------------------------

  predicate Included(path: string, scope: Scope) {
    scope.includes == [] || AnyCovers(path, scope.includes)
  }

  lemma IncludedThrough(x: string, e: string, scope: Scope)
    requires PathCovered(x, e) && Included(e, scope)
    ensures Included(x, scope)
  {
    if scope.includes != [] {
      var i :| 0 <= i < |scope.includes| && PathCovered(e, scope.includes[i]);
      CoversThrough(x, e, scope.includes[i]);
    }
  }

  lemma ExcludedBy(x: string, scope: Scope) returns (e: string)
    requires Included(x, scope) && Outside(x, scope)
    ensures e in scope.excludes && PathCovered(x, e)
  {
    var j :| 0 <= j < |scope.excludes| && PathCovered(x, scope.excludes[j]);
    e := scope.excludes[j];
  }

  lemma CoveredByAny(x: string, patterns: seq<string>, e: string)
    requires e in patterns && PathCovered(x, e)
    ensures AnyCovers(x, patterns)
  {
    var j :| 0 <= j < |patterns| && patterns[j] == e;
    assert PathCovered(x, patterns[j]);
  }

  /** An exclude over a path the launch may touch was dropped: some member may touch the exclude itself. */
  lemma NotKept(members: seq<Scope>, x: string, e: string) returns (i: nat)
    requires Inside(x, MergedScope(members)) && PathCovered(x, e)
    requires exists i :: 0 <= i < |members| && e in members[i].excludes
    ensures i < |members| && Inside(e, members[i])
  {
    KeptExclude(members, e);
    var merged := MergedScope(members);
    if e in merged.excludes {
      CoveredByAny(x, merged.excludes, e);
    }
    i :| 0 <= i < |members| && Inside(e, members[i]);
  }

  /** A member's exclude over x that was not kept leads to a member that may touch it, and so on to
      longer excludes, until one may touch x itself. */
  lemma {:induction false} Descend(members: seq<Scope>, x: string, e: string) returns (k: nat)
    requires Inside(x, MergedScope(members)) && PathCovered(x, e)
    requires exists i :: 0 <= i < |members| && e in members[i].excludes
    ensures k < |members| && Inside(x, members[k])
    decreases |x| - |Stripped(e)|
  {
    k := NotKept(members, x, e);
    IncludedThrough(x, e, members[k]);
    if Outside(x, members[k]) {
      var longer := ExcludedBy(x, members[k]);
      if PathCovered(e, longer) {
        CoveredByAny(e, members[k].excludes, longer);
      }
      CoversNest(x, e, longer);
      k := Descend(members, x, longer);
    }
  }

  lemma MergedIncludeIsSomeones(members: seq<Scope>, x: string) returns (k: nat)
    requires members != [] && Included(x, MergedScope(members))
    ensures k < |members| && Included(x, members[k])
  {
    if exists i :: 0 <= i < |members| && members[i].includes == [] {
      k :| 0 <= k < |members| && members[k].includes == [];
    } else {
      var all := MergedScope(members).includes;
      KeptInclude(members, members[0].includes[0]);
      assert members[0].includes[0] in all;
      var i :| 0 <= i < |all| && PathCovered(x, all[i]);
      KeptInclude(members, all[i]);
      k :| 0 <= k < |members| && all[i] in members[k].includes;
      var j :| 0 <= j < |members[k].includes| && members[k].includes[j] == all[i];
      assert PathCovered(x, members[k].includes[j]);
    }
  }

  /** A launch may touch only what some member may, whatever the scopes. */
  lemma MergedAllowsOnlyMembers(members: seq<Scope>, x: string) returns (k: nat)
    requires members != [] && Inside(x, MergedScope(members))
    ensures k < |members| && Inside(x, members[k])
  {
    k := MergedIncludeIsSomeones(members, x);
    if Outside(x, members[k]) {
      var e := ExcludedBy(x, members[k]);
      k := Descend(members, x, e);
    }
  }

  // ---- and covers what every member does, unless an include lies beneath a kept exclude ----

  lemma IncludeCarriesOver(members: seq<Scope>, k: nat, x: string)
    requires k < |members| && Included(x, members[k])
    ensures Included(x, MergedScope(members))
  {
    if forall i :: 0 <= i < |members| ==> members[i].includes != [] {
      var j :| 0 <= j < |members[k].includes| && PathCovered(x, members[k].includes[j]);
      var all := MergedScope(members).includes;
      KeptInclude(members, members[k].includes[j]);
      var i :| 0 <= i < |all| && all[i] == members[k].includes[j];
      assert PathCovered(x, all[i]);
    }
  }

  /** An include of this member, not undone by its own excludes, that a kept exclude lies over. */
  ghost predicate Smothered(members: seq<Scope>, k: nat, p: string, e: string)
    requires k < |members|
  {
    && p in members[k].includes && Stripped(p) != "" && !AnyCovers(Stripped(p), members[k].excludes)
    && e in MergedScope(members).excludes && PathCovered(Stripped(p), e)
  }

  lemma NotUnderOwnExclude(x: string, y: string, scope: Scope)
    requires Inside(x, scope) && PathCovered(x, y)
    ensures !AnyCovers(y, scope.excludes)
  {
    if AnyCovers(y, scope.excludes) {
      var j :| 0 <= j < |scope.excludes| && PathCovered(y, scope.excludes[j]);
      var e := scope.excludes[j];
      CoversThrough(x, y, e);
      CoveredByAny(x, scope.excludes, e);
    }
  }

  lemma CoveredByStripped(x: string, p: string)
    requires PathCovered(x, p)
    ensures PathCovered(x, Stripped(p)) && Stripped(p) != ""
  {
    StrippedFacts(p);
  }

  /** A path of a member is lost only beneath such an include. */
  lemma LossMeansSmothered(members: seq<Scope>, k: nat, x: string) returns (p: string, e: string)
    requires k < |members| && Inside(x, members[k]) && Outside(x, MergedScope(members))
    ensures Smothered(members, k, p, e) && PathCovered(x, p)
  {
    IncludeCarriesOver(members, k, x);
    e := ExcludedBy(x, MergedScope(members));
    KeptExclude(members, e);
    NotUnderOwnExclude(x, e, members[k]);
    assert members[k].includes != [] && !AnyCovers(e, members[k].includes);
    var j :| 0 <= j < |members[k].includes| && PathCovered(x, members[k].includes[j]);
    p := members[k].includes[j];
    assert !PathCovered(e, members[k].includes[j]);
    CoversNest(x, e, p);
    CoveredByStripped(x, p);
    NotUnderOwnExclude(x, Stripped(p), members[k]);
  }

  ghost predicate CoversAllMembers(members: seq<Scope>) {
    forall k, x :: 0 <= k < |members| && Inside(x, members[k]) ==> Inside(x, MergedScope(members))
  }

  ghost predicate NoneSmothered(members: seq<Scope>) {
    forall k, p, e :: 0 <= k < |members| ==> !Smothered(members, k, p, e)
  }

  lemma NoLoss(members: seq<Scope>, k: nat, x: string)
    requires NoneSmothered(members) && k < |members| && Inside(x, members[k])
    ensures Inside(x, MergedScope(members))
  {
    if Outside(x, MergedScope(members)) {
      var p, e := LossMeansSmothered(members, k, x);
    }
  }

  lemma NoneSmotheredCovers(members: seq<Scope>)
    requires NoneSmothered(members)
    ensures CoversAllMembers(members)
  {
    forall k, x | 0 <= k < |members| && Inside(x, members[k])
      ensures Inside(x, MergedScope(members))
    {
      NoLoss(members, k, x);
    }
  }

  lemma SmotheredUncovers(members: seq<Scope>, k: nat, p: string, e: string)
    requires k < |members| && Smothered(members, k, p, e)
    ensures !CoversAllMembers(members)
  {
    var x := Stripped(p);
    SmotheredIsLost(members, k, p, e);
    assert Inside(x, members[k]) && !Inside(x, MergedScope(members));
  }

  /** `merged` covers every path its members cover exactly when no kept exclude lies over a live include
      of one of them. */
  lemma MergedCoversExactly(members: seq<Scope>)
    ensures CoversAllMembers(members) <==> NoneSmothered(members)
  {
    if NoneSmothered(members) {
      NoneSmotheredCovers(members);
    } else {
      var k, p, e :| 0 <= k < |members| && Smothered(members, k, p, e);
      SmotheredUncovers(members, k, p, e);
    }
  }

  lemma SmotheredIsLost(members: seq<Scope>, k: nat, p: string, e: string)
    requires k < |members| && Smothered(members, k, p, e)
    ensures Inside(Stripped(p), members[k]) && Outside(Stripped(p), MergedScope(members))
  {
    CoversItself(p);
    var i :| 0 <= i < |members[k].includes| && members[k].includes[i] == p;
    assert PathCovered(Stripped(p), members[k].includes[i]);
    var merged := MergedScope(members).excludes;
    var j :| 0 <= j < |merged| && merged[j] == e;
    assert PathCovered(Stripped(p), merged[j]);
  }

  lemma PlainPattern(x: string, p: string)
    requires p != "" && p[|p| - 1] != '/'
    ensures Stripped(p) == p
    ensures PathCovered(x, p) <==> x == p || p + "/" <= x
  {
  }

  /** Two siblings, one leaving out what the other includes a part of: that part is lost, for any names. */
  lemma CoverageLost(a: string, x: string, y: string)
    requires x != "" && x[|x| - 1] != '/' && y != "" && y[|y| - 1] != '/'
    requires x + "/" <= y
    ensures !CoversAllMembers([Scope([a], [x]), Scope([y], [])])
  {
    var first, second := Scope([a], [x]), Scope([y], []);
    var members := [first, second];
    BeneathCovers(x, y);
    OutsideBoth(first, second, x, y);
    assert forall i :: 0 <= i < |members| ==> members[i] == first || members[i] == second;
    KeptByAll(members, 0, x);
    IncludeSmothered(members, 1, y, x);
    SmotheredUncovers(members, 1, y, x);
  }

  lemma KeptByAll(members: seq<Scope>, k: nat, e: string)
    requires k < |members| && e in members[k].excludes
    requires forall i :: 0 <= i < |members| ==> Outside(e, members[i])
    ensures e in MergedScope(members).excludes
  {
    KeptExclude(members, e);
  }

  lemma IncludeSmothered(members: seq<Scope>, k: nat, p: string, e: string)
    requires k < |members| && members[k] == Scope([p], [])
    requires Stripped(p) == p != "" && e in MergedScope(members).excludes && PathCovered(p, e)
    ensures Smothered(members, k, p, e)
  {
    assert members[k].includes[0] == p;
  }

  lemma BeneathCovers(x: string, y: string)
    requires x != "" && x[|x| - 1] != '/' && y != "" && y[|y| - 1] != '/'
    requires x + "/" <= y
    ensures PathCovered(y, x) && !PathCovered(x, y) && PathCovered(x, x) && PathCovered(y, y)
    ensures Stripped(x) == x && Stripped(y) == y
  {
    PlainPattern(x, x);
    PlainPattern(x, y);
    PlainPattern(y, x);
    PlainPattern(y, y);
  }

  lemma OutsideBoth(first: Scope, second: Scope, x: string, y: string)
    requires first.excludes == [x] && PathCovered(x, x)
    requires second == Scope([y], []) && !PathCovered(x, y)
    ensures Outside(x, first) && Outside(x, second)
  {
    CoveredByAny(x, first.excludes, x);
    assert !PathCovered(x, second.includes[0]);
  }

  /** For example: `src` without `src/x`, beside `src/x/y`. */
  lemma CoverageLostExample()
    ensures !CoversAllMembers([Scope(["src"], ["src/x"]), Scope(["src/x/y"], [])])
  {
    assert "src/x" + "/" <= "src/x/y";
    CoverageLost("src", "src/x", "src/x/y");
  }
}
