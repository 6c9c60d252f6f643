/** Order-preserving filtering, first-match lookup and stable sorting by a key. */
module Seqs {
  import opened Wrappers

  /** `r` is `s` with some elements dropped and the rest in their original order. */
  predicate IsSubsequence<T(==)>(r: seq<T>, s: seq<T>)
  {
    if r == [] then true
    else if s == [] then false
    else if r[0] == s[0] then IsSubsequence(r[1..], s[1..])
    else IsSubsequence(r, s[1..])
  }

  /** `Where`: the elements satisfying `p`, in order. */
  function Filter<T(==,!new)>(s: seq<T>, p: T -> bool): (r: seq<T>)
    ensures forall x :: x in r <==> x in s && p(x)
    ensures forall i :: 0 <= i < |r| ==> p(r[i])
    ensures multiset(r) <= multiset(s)
    ensures IsSubsequence(r, s)
    ensures |r| <= |s|
  {
    if s == [] then []
    else
      assert s == [s[0]] + s[1..];
      if p(s[0]) then [s[0]] + Filter(s[1..], p) else Filter(s[1..], p)
  }

  /** Filtering keeps every element that passes, with its multiplicity. */
  lemma {:induction false} FilterCount<T(!new)>(s: seq<T>, p: T -> bool, x: T)
    requires p(x)
    ensures multiset(Filter(s, p))[x] == multiset(s)[x]
  {
    if s != [] {
      assert s == [s[0]] + s[1..];
      FilterCount(s[1..], p, x);
    }
  }

  /** Filtering keeps exactly the elements that pass, each as often as it occurs. */
  lemma FilterMultiset<T(!new)>(s: seq<T>, p: T -> bool)
    ensures forall x :: multiset(Filter(s, p))[x] == if p(x) then multiset(s)[x] else 0
  {
    forall x
      ensures multiset(Filter(s, p))[x] == if p(x) then multiset(s)[x] else 0
    {
      if p(x) {
        FilterCount(s, p, x);
      } else {
        assert x !in Filter(s, p);
      }
    }
  }

  /** The position of the first element satisfying `p`. */
  function FirstIndex<T>(s: seq<T>, p: T -> bool): (r: Option<nat>)
    ensures r.Some? ==> r.value < |s| && p(s[r.value]) && forall j :: 0 <= j < r.value ==> !p(s[j])
    ensures r.None? ==> forall i :: 0 <= i < |s| ==> !p(s[i])
  {
    if s == [] then None
    else if p(s[0]) then Some(0)
    else
      match FirstIndex(s[1..], p)
      case None => None
      case Some(i) => Some(i + 1)
  }

  /** `FirstOrDefault`: the first element satisfying `p`. */
  function FirstMatch<T>(s: seq<T>, p: T -> bool): (r: Option<T>)
    ensures r.None? <==> forall i :: 0 <= i < |s| ==> !p(s[i])
    ensures r.Some? ==> exists i :: 0 <= i < |s| && s[i] == r.value && p(s[i]) && forall j :: 0 <= j < i ==> !p(s[j])
  {
    match FirstIndex(s, p)
    case None => None
    case Some(i) => Some(s[i])
  }

  /** Ordered by `key`, ascending or descending. */
  predicate SortedBy<T>(s: seq<T>, key: T -> int, descending: bool)
  {
    forall i, j :: 0 <= i < j < |s| ==> if descending then key(s[i]) >= key(s[j]) else key(s[i]) <= key(s[j])
  }

  /** Puts `x` into the sorted `s` after every element it does not strictly precede. */
  function Insert<T>(x: T, s: seq<T>, key: T -> int, descending: bool): (r: seq<T>)
    requires SortedBy(s, key, descending)
    ensures SortedBy(r, key, descending)
    ensures multiset(r) == multiset(s) + multiset{x}
    ensures |r| == |s| + 1
  {
    if s == [] then [x]
    else if (if descending then key(x) > key(s[0]) else key(x) < key(s[0])) then
      [x] + s
    else
      var rest := Insert(x, s[1..], key, descending);
      assert s == [s[0]] + s[1..];
      SortedPrepend(s[0], s[1..], x, rest, key, descending);
      [s[0]] + rest
  }

  /** A head that precedes both the sorted tail and the inserted element precedes their merge. */
  lemma SortedPrepend<T>(h: T, t: seq<T>, x: T, rest: seq<T>, key: T -> int, descending: bool)
    requires SortedBy([h] + t, key, descending) && SortedBy(rest, key, descending)
    requires if descending then key(h) >= key(x) else key(h) <= key(x)
    requires multiset(rest) == multiset(t) + multiset{x}
    ensures SortedBy([h] + rest, key, descending)
  {
    forall j | 0 <= j < |rest|
      ensures if descending then key(h) >= key(rest[j]) else key(h) <= key(rest[j])
    {
      assert rest[j] in multiset(rest);
      if rest[j] != x {
        assert rest[j] in multiset(t);
        var k :| 0 <= k < |t| && t[k] == rest[j];
        assert ([h] + t)[0] == h && ([h] + t)[k + 1] == t[k];
      }
    }
    var r := [h] + rest;
    forall i, j | 0 <= i < j < |r|
      ensures if descending then key(r[i]) >= key(r[j]) else key(r[i]) <= key(r[j])
    {
      assert r[j] == rest[j - 1];
      if i > 0 {
        assert r[i] == rest[i - 1];
      }
    }
  }

  /** `OrderBy` / `OrderByDescending`: a sorted permutation of `s`. */
  function SortBy<T>(s: seq<T>, key: T -> int, descending: bool): (r: seq<T>)
    ensures SortedBy(r, key, descending)
    ensures multiset(r) == multiset(s)
    ensures |r| == |s|
  {
    if s == [] then []
    else
      assert s == [s[0]] + s[1..];
      Insert(s[0], SortBy(s[1..], key, descending), key, descending)
  }

  /** Sorting keeps exactly the elements it was given. */
  lemma SortByMembers<T(!new)>(s: seq<T>, key: T -> int, descending: bool)
    ensures forall x :: x in SortBy(s, key, descending) <==> x in s
  {
    var r := SortBy(s, key, descending);
    forall x
      ensures x in r <==> x in s
    {
      assert x in r <==> x in multiset(r);
      assert x in s <==> x in multiset(s);
    }
  }

  /** `Where(p).OrderBy(key)`: the elements that pass, each as often as it occurs, sorted. */
  function SortedWhere<T(==,!new)>(s: seq<T>, p: T -> bool, key: T -> int, descending: bool): (r: seq<T>)
    ensures SortedBy(r, key, descending)
    ensures forall x :: multiset(r)[x] == if p(x) then multiset(s)[x] else 0
    ensures forall x :: x in r <==> x in s && p(x)
  {
    FilterMultiset(s, p);
    var r := SortBy(Filter(s, p), key, descending);
    assert forall x :: x in r <==> x in multiset(r);
    r
  }
}
