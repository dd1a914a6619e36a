/** The most specific pattern that covers a path (src/rein/common.py). */
module Covers {
  import opened Optional
  import opened Scopes

  /** It covers the path, and no other pattern of the list that does is longer. */
  ghost predicate IsMostSpecific(path: string, patterns: seq<string>, p: string) {
    && p in patterns && PathCovered(path, p)
    && forall q :: q in patterns && PathCovered(path, q) ==> |Stripped(q)| <= |Stripped(p)|
  }

  function Better(path: string, best: Option<string>, pattern: string): Option<string> {
    if PathCovered(path, pattern) && (best.None? || |Stripped(pattern)| > |Stripped(best.value)|) then Some(pattern) else best
  }

  function LongestCover(path: string, patterns: seq<string>): Option<string> {
    if patterns == [] then None
    else Better(path, LongestCover(path, patterns[..|patterns| - 1]), patterns[|patterns| - 1])
  }

  /** `longest_cover`. */
  method FindLongestCover(path: string, patterns: seq<string>) returns (best: Option<string>)
    ensures best == LongestCover(path, patterns)
  {
    best := None;
    for i := 0 to |patterns|
      invariant best == LongestCover(path, patterns[..i])
    {
      assert patterns[..i + 1][..i] == patterns[..i];
      if PathCovered(path, patterns[i]) && (best.None? || |Stripped(patterns[i])| > |Stripped(best.value)|) {
        best := Some(patterns[i]);
      }
    }
    assert patterns[..|patterns|] == patterns;
  }

  lemma {:induction false} LongestCoverHolds(path: string, patterns: seq<string>)
    ensures LongestCover(path, patterns).Some? <==> exists p :: p in patterns && PathCovered(path, p)
    ensures LongestCover(path, patterns).Some? ==> IsMostSpecific(path, patterns, LongestCover(path, patterns).value)
  {
    if patterns != [] {
      var rest, last := patterns[..|patterns| - 1], patterns[|patterns| - 1];
      assert patterns == rest + [last];
      LongestCoverHolds(path, rest);
      if LongestCover(path, rest).Some? {
        assert LongestCover(path, rest).value in patterns;
      }
      assert last in patterns;
    }
  }

  /** Two patterns as long that cover one path name the same place. */
  lemma AsLongIsTheSame(path: string, p: string, q: string)
    requires PathCovered(path, p) && PathCovered(path, q) && |Stripped(p)| == |Stripped(q)|
    ensures Stripped(p) == Stripped(q)
  {
    assert Stripped(p) == path[..|Stripped(p)|] && Stripped(q) == path[..|Stripped(q)|];
  }

  /** An exact match is longer than any prefix. */
  lemma ExactWins(path: string, patterns: seq<string>, p: string)
    requires p in patterns && Stripped(p) == path != ""
    ensures LongestCover(path, patterns).Some? && Stripped(LongestCover(path, patterns).value) == path
  {
    LongestCoverHolds(path, patterns);
    var best := LongestCover(path, patterns).value;
    assert |path| <= |Stripped(best)|;
    AsLongIsTheSame(path, p, best);
  }

  /** Whatever the order of the patterns, the answer names the same place. */
  lemma OrderDoesNotMatter(path: string, a: seq<string>, b: seq<string>)
    requires forall p :: p in a <==> p in b
    ensures LongestCover(path, a).Some? <==> LongestCover(path, b).Some?
    ensures LongestCover(path, a).Some? ==> Stripped(LongestCover(path, a).value) == Stripped(LongestCover(path, b).value)
  {
    LongestCoverHolds(path, a);
    LongestCoverHolds(path, b);
    if LongestCover(path, a).Some? {
      AsLongIsTheSame(path, LongestCover(path, a).value, LongestCover(path, b).value);
    }
  }

  /** The most specific place is not spelled twice. */
  ghost predicate SpelledOnce(path: string, patterns: seq<string>) {
    forall p, q :: IsMostSpecific(path, patterns, p) && IsMostSpecific(path, patterns, q) ==> p == q
  }

  ghost predicate SameInEveryOrder(path: string, patterns: seq<string>) {
    forall other: seq<string> {:trigger LongestCover(path, other)} ::
      multiset(other) == multiset(patterns) ==> LongestCover(path, other) == LongestCover(path, patterns)
  }

  lemma SpelledOnceIsSame(path: string, patterns: seq<string>)
    requires SpelledOnce(path, patterns)
    ensures SameInEveryOrder(path, patterns)
  {
    forall other: seq<string> {:trigger LongestCover(path, other)} | multiset(other) == multiset(patterns)
      ensures LongestCover(path, other) == LongestCover(path, patterns)
    {
      assert forall p :: p in other <==> p in multiset(other);
      assert forall p :: p in patterns <==> p in multiset(patterns);
      OrderDoesNotMatter(path, other, patterns);
      LongestCoverHolds(path, other);
      LongestCoverHolds(path, patterns);
      if LongestCover(path, other).Some? {
        assert IsMostSpecific(path, patterns, LongestCover(path, other).value);
      }
    }
  }

  /** Among the longest, the first wins. */
  lemma {:induction false} FirstWins(path: string, p: string, rest: seq<string>)
    requires PathCovered(path, p)
    requires forall q :: q in rest && PathCovered(path, q) ==> |Stripped(q)| <= |Stripped(p)|
    ensures LongestCover(path, [p] + rest) == Some(p)
  {
    var all := [p] + rest;
    if rest == [] {
      assert all == [p] && [p][..0] == [];
      assert LongestCover(path, [p]) == Better(path, LongestCover(path, []), p);
    } else {
      FirstWins(path, p, rest[..|rest| - 1]);
      assert all[..|all| - 1] == [p] + rest[..|rest| - 1];
    }
  }

  /** The answer is the same pattern, letter for letter, in every order exactly when its place is not
      spelled twice. */
  lemma SameExactlyWhenSpelledOnce(path: string, patterns: seq<string>)
    ensures SameInEveryOrder(path, patterns) <==> SpelledOnce(path, patterns)
  {
    if SpelledOnce(path, patterns) {
      SpelledOnceIsSame(path, patterns);
    } else {
      var p, q :| IsMostSpecific(path, patterns, p) && IsMostSpecific(path, patterns, q) && p != q;
      var a := BroughtForward(path, patterns, p);
      var b := BroughtForward(path, patterns, q);
      assert LongestCover(path, a) != LongestCover(path, b);
    }
  }

  /** The patterns with a most specific one first. */
  lemma BroughtForward(path: string, patterns: seq<string>, p: string) returns (other: seq<string>)
    requires IsMostSpecific(path, patterns, p)
    ensures multiset(other) == multiset(patterns) && LongestCover(path, other) == Some(p)
  {
    var i :| 0 <= i < |patterns| && patterns[i] == p;
    var rest := patterns[..i] + patterns[i + 1..];
    other := [p] + rest;
    assert patterns == patterns[..i] + [p] + patterns[i + 1..];
    assert forall x :: x in rest ==> x in patterns;
    FirstWins(path, p, rest);
  }

  /** For example with its slash and without: the first spelling wins. */
  lemma FirstSpellingWins(p: string)
    requires p != "" && p[|p| - 1] != '/'
    ensures LongestCover(p, [p] + [p + "/"]) == Some(p) && LongestCover(p, [p + "/"] + [p]) == Some(p + "/")
  {
    SlashStripped(p);
    EitherFirst(p, p, p + "/");
    EitherFirst(p, p + "/", p);
  }

  lemma SlashStripped(p: string)
    requires p != "" && p[|p| - 1] != '/'
    ensures Stripped(p) == p && Stripped(p + "/") == p
    ensures PathCovered(p, p) && PathCovered(p, p + "/")
  {
    var slashed := p + "/";
    assert slashed[..|slashed| - 1] == p;
  }

  lemma EitherFirst(path: string, p: string, q: string)
    requires PathCovered(path, p) && |Stripped(p)| == |Stripped(q)|
    ensures LongestCover(path, [p] + [q]) == Some(p)
  {
    FirstWins(path, p, [q]);
  }
}
