/** Task ids: strings in their lexicographic order, and sorted lists of them. */
module Ids {

  type Id = string

  /** Strictly before, character by character. */
  predicate Before(a: Id, b: Id) {
    b != [] && (a == [] || a[0] < b[0] || (a[0] == b[0] && Before(a[1..], b[1..])))
  }

  lemma {:induction false} BeforeConnects(a: Id, b: Id)
    ensures Before(a, b) || a == b || Before(b, a)
    ensures !(Before(a, b) && Before(b, a))
    ensures !Before(a, a)
  {
    if a != [] {
      BeforeConnects(a[1..], a[1..]);
    }
    if a != [] && b != [] && a[0] == b[0] {
      BeforeConnects(a[1..], b[1..]);
      assert a == [a[0]] + a[1..] && b == [b[0]] + b[1..];
    }
  }

  lemma {:induction false} BeforeChains(a: Id, b: Id, c: Id)
    requires Before(a, b) && Before(b, c)
    ensures Before(a, c)
  {
    if a != [] && a[0] == b[0] && b[0] == c[0] {
      BeforeChains(a[1..], b[1..], c[1..]);
    }
  }

  /** The shorter of two that agree so far, or the smaller where they first differ. */
  predicate BeforeAt(a: Id, b: Id, k: nat) {
    k <= |a| && k < |b| && a[..k] == b[..k] && (k == |a| || a[k] < b[k])
  }

  lemma {:induction false} BeforeExactly(a: Id, b: Id)
    ensures Before(a, b) <==> exists k: nat :: BeforeAt(a, b, k)
  {
    if a == [] || b == [] || a[0] != b[0] {
      assert Before(a, b) ==> BeforeAt(a, b, 0);
      assert forall k: nat :: BeforeAt(a, b, k) && k > 0 ==> a[..k][0] == b[..k][0];
    } else {
      BeforeExactly(a[1..], b[1..]);
      if k: nat :| BeforeAt(a[1..], b[1..], k) {
        assert a[..k + 1] == [a[0]] + a[1..][..k] && b[..k + 1] == [b[0]] + b[1..][..k];
        assert BeforeAt(a, b, k + 1);
      }
      if k: nat :| BeforeAt(a, b, k) {
        assert k > 0;
        assert a[1..][..k - 1] == a[..k][1..] && b[1..][..k - 1] == b[..k][1..];
        assert BeforeAt(a[1..], b[1..], k - 1);
      }
    }
  }

  /** Before is a strict total order. */
  lemma BeforeIsTotalOrder()
    ensures forall a: Id :: !Before(a, a)
    ensures forall a: Id, b: Id :: Before(a, b) || a == b || Before(b, a)
    ensures forall a: Id, b: Id :: !(Before(a, b) && Before(b, a))
    ensures forall a: Id, b: Id, c: Id :: Before(a, b) && Before(b, c) ==> Before(a, c)
  {
    forall a: Id, b: Id {
      BeforeConnects(a, b);
    }
    forall a: Id, b: Id, c: Id | Before(a, b) && Before(b, c) {
      BeforeChains(a, b, c);
    }
  }

  function Elems<T>(s: seq<T>): set<T> {
    set x | x in s
  }

  ghost predicate Distinct<T>(s: seq<T>) {
    forall i, j :: 0 <= i < j < |s| ==> s[i] != s[j]
  }

  ghost predicate Ascending(s: seq<Id>) {
    forall i, j :: 0 <= i < j < |s| ==> Before(s[i], s[j])
  }

  /** Not descending: equal neighbours are allowed. */
  ghost predicate Sorted(s: seq<Id>) {
    forall i, j :: 0 <= i < j < |s| ==> !Before(s[j], s[i])
  }

  function Insert(x: Id, s: seq<Id>): (r: seq<Id>)
    ensures multiset(r) == multiset(s) + multiset{x}
  {
    if s == [] then [x]
    else if Before(s[0], x) then
      assert s == [s[0]] + s[1..];
      [s[0]] + Insert(x, s[1..])
    else [x] + s
  }

  lemma {:induction false} InsertKeepsSorted(x: Id, s: seq<Id>)
    requires Sorted(s)
    ensures Sorted(Insert(x, s))
  {
    if s != [] {
      if Before(s[0], x) {
        InsertKeepsSorted(x, s[1..]);
        InsertedAfter(x, s);
        SortedBehind(s[0], Insert(x, s[1..]));
      } else {
        NothingBefore(x, s);
        SortedBehind(x, s);
      }
    }
  }

  lemma SortedBehind(x: Id, s: seq<Id>)
    requires Sorted(s) && forall k :: 0 <= k < |s| ==> !Before(s[k], x)
    ensures Sorted([x] + s)
  {
  }

  lemma InsertedAfter(x: Id, s: seq<Id>)
    requires s != [] && Before(s[0], x) && Sorted(s)
    ensures forall k :: 0 <= k < |Insert(x, s[1..])| ==> !Before(Insert(x, s[1..])[k], s[0])
  {
    var rest := Insert(x, s[1..]);
    BeforeConnects(s[0], x);
    forall k | 0 <= k < |rest|
      ensures !Before(rest[k], s[0])
    {
      assert rest[k] in multiset(rest);
      if rest[k] in multiset(s[1..]) {
        var j :| 0 <= j < |s[1..]| && s[1..][j] == rest[k];
        assert s[j + 1] == rest[k];
      }
    }
  }

  lemma NothingBefore(x: Id, s: seq<Id>)
    requires s != [] && !Before(s[0], x)
    ensures Sorted(s) ==> forall k :: 0 <= k < |s| ==> !Before(s[k], x)
  {
    BeforeIsTotalOrder();
    if Sorted(s) {
      forall k | 0 <= k < |s|
        ensures !Before(s[k], x)
      {
        assert k == 0 || !Before(s[k], s[0]);
      }
    }
  }

  /** What Python's `sorted` returns for a list of ids. */
  function Sort(s: seq<Id>): seq<Id> {
    if s == [] then [] else Insert(s[0], Sort(s[1..]))
  }

  /** `sorted` gives the same ids, as often as they occur, in order. */
  lemma {:induction false} SortHolds(s: seq<Id>)
    ensures multiset(Sort(s)) == multiset(s) && Sorted(Sort(s))
  {
    if s != [] {
      SortHolds(s[1..]);
      assert s == [s[0]] + s[1..];
      InsertKeepsSorted(s[0], Sort(s[1..]));
    }
  }

  lemma SortKeepsMembers(s: seq<Id>)
    ensures forall x :: x in Sort(s) <==> x in s
    ensures |Sort(s)| == |s|
  {
    SortHolds(s);
    assert forall x :: x in Sort(s) <==> x in multiset(Sort(s));
    assert forall x :: x in s <==> x in multiset(s);
    assert |Sort(s)| == |multiset(Sort(s))| == |multiset(s)|;
  }

  /** A list without repeats sorts into a strictly ascending one. */
  lemma SortDistinct(s: seq<Id>)
    requires Distinct(s)
    ensures Ascending(Sort(s))
  {
    var r := Sort(s);
    SortHolds(s);
    BeforeIsTotalOrder();
    forall i, j | 0 <= i < j < |r|
      ensures r[i] != r[j]
    {
      if r[i] == r[j] {
        RepeatCounts(r, i, j);
        DistinctCounts(s, r[i]);
      }
    }
  }

  lemma RepeatCounts(r: seq<Id>, i: nat, j: nat)
    requires i < j < |r| && r[i] == r[j]
    ensures multiset(r)[r[i]] >= 2
  {
    assert r == r[..i] + [r[i]] + r[i + 1..j] + [r[j]] + r[j + 1..];
  }

  lemma {:induction false} DistinctCounts<T>(s: seq<T>, x: T)
    requires Distinct(s)
    ensures multiset(s)[x] <= 1
  {
    if s != [] {
      assert s == [s[0]] + s[1..];
      DistinctCounts(s[1..], x);
      if x == s[0] {
        assert x !in s[1..];
      }
    }
  }

  /** Two ascending lists with the same members are the same list. */
  lemma {:induction false} AscendingUnique(a: seq<Id>, b: seq<Id>)
    requires Ascending(a) && Ascending(b)
    requires forall x :: x in a <==> x in b
    ensures a == b
  {
    BeforeIsTotalOrder();
    assert (a == [] || a[0] in a) && (b == [] || b[0] in b);
    if a != [] {
      assert a[0] == b[0];
      forall x
        ensures x in a[1..] <==> x in b[1..]
      {
        assert x in a[1..] <==> x in a && x != a[0];
        assert x in b[1..] <==> x in b && x != b[0];
      }
      AscendingUnique(a[1..], b[1..]);
      assert a == [a[0]] + a[1..] && b == [b[0]] + b[1..];
    }
  }

  lemma DistinctJoin<T>(a: seq<T>, b: seq<T>)
    requires Distinct(a) && Distinct(b)
    requires forall x :: x in b ==> x !in a
    ensures Distinct(a + b)
  {
    var s := a + b;
    forall i, j | 0 <= i < j < |s|
      ensures s[i] != s[j]
    {
      if i < |a| <= j {
        assert s[j] in b;
      }
    }
  }

  lemma {:induction false} DistinctSize<T>(s: seq<T>)
    requires Distinct(s)
    ensures |Elems(s)| == |s|
  {
    if s != [] {
      DistinctSize(s[1..]);
      assert Elems(s) == {s[0]} + Elems(s[1..]);
    }
  }

  /** A list longer than the set it draws from repeats itself. */
  lemma Pigeonhole<T>(s: seq<T>, pool: set<T>) returns (i: nat, j: nat)
    requires forall x :: x in s ==> x in pool
    requires |s| > |pool|
    ensures i < j < |s| && s[i] == s[j]
  {
    if Distinct(s) {
      DistinctSize(s);
      SubsetSize(Elems(s), pool);
    }
    i, j :| 0 <= i < j < |s| && s[i] == s[j];
  }

  lemma {:induction false} SubsetSize<T>(a: set<T>, b: set<T>)
    requires a <= b
    ensures |a| <= |b|
    ensures |a| == |b| ==> a == b
  {
    if a != {} {
      var x :| x in a;
      SubsetSize(a - {x}, b - {x});
      assert a == (a - {x}) + {x} && b == (b - {x}) + {x};
    } else {
      assert |b| == 0 ==> b == {};
    }
  }
}
