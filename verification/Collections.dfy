/**
 Facts about finite sets and sequences that several components use.
 */
module Collections {

  predicate Distinct<T(==)>(s: seq<T>) {
    forall i, j :: 0 <= i < j < |s| ==> s[i] != s[j]
  }

  lemma {:induction false} DistinctFits<T>(s: seq<T>, universe: set<T>)
    requires Distinct(s)
    requires forall i :: 0 <= i < |s| ==> s[i] in universe
    ensures |s| <= |universe|
  {
    if s != [] {
      var last := s[|s| - 1];
      DistinctFits(s[..|s| - 1], universe - {last});
    }
  }

  lemma {:induction false} DistinctCount<T>(s: seq<T>, all: set<T>)
    requires Distinct(s) && forall x :: x in s <==> x in all
    ensures |s| == |all|
  {
    if s == [] {
      assert forall x :: x !in all;
    } else {
      var front, last := s[..|s| - 1], s[|s| - 1];
      assert s == front + [last];
      DistinctCount(front, all - {last});
    }
  }

  ghost function SomeMember<T>(s: set<T>): (x: T)
    requires s != {}
    ensures x in s
  {
    var x :| x in s; x
  }

  method TakeSome<T(==)>(s: set<T>) returns (x: T)
    requires s != {}
    ensures x in s
  {
    x :| x in s;
  }

  method TakeSomeOf<T(==)>(s: multiset<T>) returns (x: T)
    requires s != multiset{}
    ensures x in s
  {
    x :| x in s;
  }

  lemma {:induction false} SubsetSize<T>(a: set<T>, b: set<T>)
    requires a <= b
    ensures |a| <= |b|
  {
    if a != {} {
      var x := SomeMember(a);
      SubsetSize(a - {x}, b - {x});
    }
  }

  lemma NewMember<T>(smaller: set<T>, larger: set<T>) returns (x: T)
    requires smaller <= larger && smaller != larger
    ensures x in larger && x !in smaller
  {
    assert !(larger <= smaller);
    x :| x in larger && x !in smaller;
  }

  lemma DisjointSubsetsSize<T>(a: set<T>, b: set<T>, whole: set<T>)
    requires a <= whole && b <= whole && a !! b
    ensures |a| + |b| <= |whole|
  {
    SubsetSize(a + b, whole);
  }

  lemma TailOfConcat<T>(a: seq<T>, b: seq<T>)
    requires a != []
    ensures (a + b)[0] == a[0] && (a + b)[1..] == a[1..] + b
  {
  }

  lemma ConcatAssociates<T>(a: seq<T>, b: seq<T>, c: seq<T>)
    ensures (a + b) + c == a + (b + c)
  {
  }

  lemma FrontAndLast<T>(s: seq<T>)
    requires s != []
    ensures s[..|s| - 1] + [s[|s| - 1]] == s
  {
  }
}
