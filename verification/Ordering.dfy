/**
 Lexicographic order on sequences, as tuples of strings and numbers compare, and
 sorting of lists by such keys.
 */
module Ordering {

  predicate IntLess(a: int, b: int) {
    a < b
  }

  /** Lexicographic comparison of sequences, as tuples compare. */
  predicate SeqLess<T(==)>(less: (T, T) -> bool, a: seq<T>, b: seq<T>) {
    b != [] && (a == [] || less(a[0], b[0]) || (a[0] == b[0] && SeqLess(less, a[1..], b[1..])))
  }

  ghost predicate StrictTotal<T(!new)>(less: (T, T) -> bool) {
    && (forall x :: !less(x, x))
    && (forall x, y, z :: less(x, y) && less(y, z) ==> less(x, z))
    && (forall x, y :: x == y || less(x, y) || less(y, x))
  }

  lemma {:induction false} SeqTotal<T(!new)>(less: (T, T) -> bool, a: seq<T>, b: seq<T>)
    requires StrictTotal(less)
    ensures !SeqLess(less, a, a)
    ensures a == b || SeqLess(less, a, b) || SeqLess(less, b, a)
  {
    if a != [] {
      SeqTotal(less, a[1..], if b == [] then [] else b[1..]);
      assert a == [a[0]] + a[1..];
    }
    if b != [] {
      assert b == [b[0]] + b[1..];
    }
  }

  lemma {:induction false} SeqTransitive<T(!new)>(less: (T, T) -> bool, a: seq<T>, b: seq<T>, c: seq<T>)
    requires StrictTotal(less)
    requires SeqLess(less, a, b) && SeqLess(less, b, c)
    ensures SeqLess(less, a, c)
  {
    if a != [] && a[0] == b[0] && b[0] == c[0] {
      SeqTransitive(less, a[1..], b[1..], c[1..]);
    }
  }

  lemma SeqAntisymmetric<T(!new)>(less: (T, T) -> bool, a: seq<T>, b: seq<T>)
    requires StrictTotal(less)
    ensures !(SeqLess(less, a, b) && SeqLess(less, b, a))
  {
    SeqTotal(less, a, a);
    if SeqLess(less, a, b) && SeqLess(less, b, a) {
      SeqTransitive(less, a, b, a);
    }
  }

  /** Sequences of one length keep their order when both are extended. */
  lemma {:induction false} SeqLessExtends<T>(less: (T, T) -> bool, a: seq<T>, b: seq<T>, x: T, y: T)
    requires |a| == |b| && SeqLess(less, a, b)
    ensures SeqLess(less, a + [x], b + [y])
  {
    if a[0] == b[0] && !less(a[0], b[0]) {
      SeqLessExtends(less, a[1..], b[1..], x, y);
      assert (a + [x])[1..] == a[1..] + [x];
      assert (b + [y])[1..] == b[1..] + [y];
    }
  }

  // ----- sorting by key -----

  /** Strings are ordered by code point. */
  function Codes(s: string): seq<int> {
    seq(|s|, i requires 0 <= i < |s| => s[i] as int)
  }

  lemma CodesInjective(s: string, t: string)
    requires Codes(s) == Codes(t)
    ensures s == t
  {
    assert |Codes(s)| == |Codes(t)|;
    forall i | 0 <= i < |s| ensures s[i] == t[i] {
      assert Codes(s)[i] == Codes(t)[i];
    }
  }

  /** `s` comes before `t`: at the first difference it has the smaller character or ends. */
  ghost predicate TextBefore(s: string, t: string) {
    exists k :: DiffersAt(s, t, k)
  }

  predicate DiffersAt(s: string, t: string, k: nat) {
    k <= |s| && k < |t| && s[..k] == t[..k] && (k == |s| || s[k] < t[k])
  }

  /** The order of texts by their codes is the usual one. */
  lemma {:induction false} LessIsBefore(s: string, t: string)
    requires SeqLess(IntLess, Codes(s), Codes(t))
    ensures TextBefore(s, t)
  {
    if s == [] || s[0] < t[0] {
      assert DiffersAt(s, t, 0);
    } else {
      assert Codes(s)[1..] == Codes(s[1..]) && Codes(t)[1..] == Codes(t[1..]);
      LessIsBefore(s[1..], t[1..]);
      var k: nat :| DiffersAt(s[1..], t[1..], k);
      assert s[..k + 1] == [s[0]] + s[1..][..k] && t[..k + 1] == [t[0]] + t[1..][..k];
      assert DiffersAt(s, t, k + 1);
    }
  }

  /** The first difference between two equally long sequences of which one is less. */
  lemma {:induction false} FirstDifference<T>(less: (T, T) -> bool, a: seq<T>, b: seq<T>) returns (k: nat)
    requires |a| == |b| && SeqLess(less, a, b)
    ensures k < |a| && a[..k] == b[..k] && less(a[k], b[k])
  {
    if less(a[0], b[0]) {
      k := 0;
    } else {
      var later := FirstDifference(less, a[1..], b[1..]);
      k := later + 1;
      assert a[..k] == [a[0]] + a[1..][..later];
      assert b[..k] == [b[0]] + b[1..][..later];
    }
  }

  /** An entry of a list that is sorted by key. */
  datatype Keyed<T> = Keyed(key: seq<int>, item: T)

  predicate Before<T>(a: Keyed<T>, b: Keyed<T>) {
    SeqLess(IntLess, a.key, b.key)
  }

  predicate Ascending<T>(s: seq<Keyed<T>>) {
    forall i, j :: 0 <= i < j < |s| ==> Before(s[i], s[j])
  }

  ghost predicate DistinctKeys<T>(s: seq<Keyed<T>>) {
    forall i, j :: 0 <= i < j < |s| ==> s[i].key != s[j].key
  }

  /** The items of the first entries, at most `limit` of them. */
  function TopItems<T>(s: seq<Keyed<T>>, limit: nat): seq<T> {
    seq(if limit < |s| then limit else |s|, i requires 0 <= i < |s| => s[i].item)
  }

  lemma KeysTotal(a: seq<int>, b: seq<int>)
    ensures a == b || SeqLess(IntLess, a, b) || SeqLess(IntLess, b, a)
    ensures !SeqLess(IntLess, a, a)
  {
    assert StrictTotal(IntLess);
    SeqTotal(IntLess, a, b);
  }

  lemma KeysTransitive(a: seq<int>, b: seq<int>, c: seq<int>)
    requires SeqLess(IntLess, a, b) && SeqLess(IntLess, b, c)
    ensures SeqLess(IntLess, a, c)
  {
    assert StrictTotal(IntLess);
    SeqTransitive(IntLess, a, b, c);
  }

  lemma AppendKeepsDistinct<T(!new)>(s: seq<Keyed<T>>, e: Keyed<T>)
    requires DistinctKeys(s) && forall x :: x in s ==> x.key != e.key
    ensures DistinctKeys(s + [e])
    ensures forall x :: x in s + [e] <==> x in s || x == e
  {
    assert (s + [e])[|s|] == e;
  }

  /** Put an entry before the first one with a larger key. */
  function Place<T(==,!new)>(e: Keyed<T>, sorted: seq<Keyed<T>>): (r: seq<Keyed<T>>)
    ensures |r| == |sorted| + 1
    ensures forall x :: x in r <==> x == e || x in sorted
  {
    if sorted == [] || Before(e, sorted[0]) then [e] + sorted
    else [sorted[0]] + Place(e, sorted[1..])
  }

  function SortByKey<T(==,!new)>(s: seq<Keyed<T>>): (r: seq<Keyed<T>>)
    ensures |r| == |s|
    ensures forall x :: x in r <==> x in s
  {
    if s == [] then [] else Place(s[0], SortByKey(s[1..]))
  }

  lemma {:induction false} PlaceAscends<T(!new)>(e: Keyed<T>, sorted: seq<Keyed<T>>)
    requires Ascending(sorted) && forall x :: x in sorted ==> x.key != e.key
    ensures Ascending(Place(e, sorted))
  {
    if sorted == [] {
    } else if Before(e, sorted[0]) {
      forall i | 0 < i < |sorted| {
        KeysTransitive(e.key, sorted[0].key, sorted[i].key);
      }
    } else {
      KeysTotal(e.key, sorted[0].key);
      PlaceAscends(e, sorted[1..]);
      var rest := Place(e, sorted[1..]);
      forall i | 0 <= i < |rest|
        ensures Before(sorted[0], rest[i])
      {
        assert rest[i] in rest;
      }
    }
  }

  /** Sorting entries with distinct keys puts them in strictly ascending order. */
  lemma {:induction false} SortAscends<T(!new)>(s: seq<Keyed<T>>)
    requires DistinctKeys(s)
    ensures Ascending(SortByKey(s))
  {
    if s != [] {
      SortAscends(s[1..]);
      PlaceAscends(s[0], SortByKey(s[1..]));
    }
  }

  lemma SmallerKeyStandsBefore<T>(s: seq<Keyed<T>>, i: nat, k: nat)
    requires Ascending(s) && i < |s| && k < |s| && Before(s[k], s[i])
    ensures k < i
  {
    KeysTotal(s[i].key, s[i].key);
    if i < k {
      KeysTransitive(s[i].key, s[k].key, s[i].key);
    }
  }

  /** Two ascending lists of the same entries are the same list. */
  lemma {:induction false} AscendingUnique<T>(a: seq<Keyed<T>>, b: seq<Keyed<T>>)
    requires Ascending(a) && Ascending(b)
    requires forall e :: e in a <==> e in b
    ensures a == b
  {
    assert a != [] ==> a[0] in a;
    assert b != [] ==> b[0] in b;
    if a != [] && b != [] {
      AscendingHead(a, b);
      AscendingHead(b, a);
      assert StrictTotal(IntLess);
      SeqAntisymmetric(IntLess, a[0].key, b[0].key);
      assert a[0] == b[0];
      forall e ensures e in a[1..] <==> e in b[1..] {
        TailMembers(a, e);
        TailMembers(b, e);
      }
      AscendingUnique(a[1..], b[1..]);
    }
  }

  lemma AscendingHead<T>(a: seq<Keyed<T>>, b: seq<Keyed<T>>)
    requires Ascending(a) && a != [] && b != [] && b[0] in a
    ensures a[0] == b[0] || Before(a[0], b[0])
  {
  }

  lemma TailMembers<T>(a: seq<Keyed<T>>, e: Keyed<T>)
    requires Ascending(a) && a != []
    ensures e in a[1..] <==> e in a && e != a[0]
  {
    KeysTotal(a[0].key, a[0].key);
    assert a == [a[0]] + a[1..];
  }
}
