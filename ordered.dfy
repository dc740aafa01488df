/**
 * First-seen order, the order in which a Python `dict` (and so a `Counter`)
 * lists its keys: each distinct element once, where it first occurred.
 */
module Ordered {

  predicate NoDuplicates<T(==)>(s: seq<T>) {
    forall i, j :: 0 <= i < j < |s| ==> s[i] != s[j]
  }

  /** The position of the first occurrence of `x` in `s`. */
  function FirstIndex<T(==)>(s: seq<T>, x: T): (i: nat)
    requires x in s
    ensures i < |s| && s[i] == x
    ensures forall j :: 0 <= j < i ==> s[j] != x
  {
    if s[0] == x then 0 else 1 + FirstIndex(s[1..], x)
  }

  /** The distinct elements of `s` in the order they first occur. */
  function FirstSeen<T(==)>(s: seq<T>): (d: seq<T>)
    ensures NoDuplicates(d)
    ensures |d| <= |s|
  {
    if s == [] then []
    else
      var d := FirstSeen(s[..|s| - 1]);
      var last := s[|s| - 1];
      if last in d then d else d + [last]
  }

  /** `FirstSeen(s)` holds exactly the elements of `s`. */
  lemma {:induction false} FirstSeenMembers<T>(s: seq<T>, x: T)
    ensures x in FirstSeen(s) <==> x in s
  {
    if s != [] {
      var p := s[..|s| - 1];
      FirstSeenMembers(p, x);
      assert s == p + [s[|s| - 1]];
    }
  }

  /** Reading one more element adds it at the end, unless it was seen before. */
  lemma FirstSeenSnoc<T>(s: seq<T>, x: T)
    ensures FirstSeen(s + [x]) == if x in s then FirstSeen(s) else FirstSeen(s) + [x]
  {
    assert (s + [x])[..|s|] == s;
    FirstSeenMembers(s, x);
  }

  lemma {:induction false} FirstIndexExtend<T>(s: seq<T>, y: T, x: T)
    requires x in s
    ensures FirstIndex(s + [y], x) == FirstIndex(s, x)
  {
    var i := FirstIndex(s, x);
    var k := FirstIndex(s + [y], x);
    assert (s + [y])[i] == x;
  }

  /** `FirstSeen(s)` lists elements of `s`, in increasing order of first occurrence. */
  lemma {:induction false} FirstSeenOrder<T>(s: seq<T>)
    ensures forall i :: 0 <= i < |FirstSeen(s)| ==> FirstSeen(s)[i] in s
    ensures forall i, j :: 0 <= i < j < |FirstSeen(s)| ==>
              FirstSeen(s)[i] in s && FirstSeen(s)[j] in s &&
              FirstIndex(s, FirstSeen(s)[i]) < FirstIndex(s, FirstSeen(s)[j])
  {
    if s != [] {
      var p := s[..|s| - 1];
      var last := s[|s| - 1];
      assert s == p + [last];
      FirstSeenOrder(p);
      var d := FirstSeen(p);
      forall x | x in p ensures x in s && FirstIndex(s, x) == FirstIndex(p, x) {
        FirstIndexExtend(p, last, x);
      }
      FirstSeenMembers(p, last);
      if last !in d {
        assert FirstIndex(s, last) == |p|;
      }
    }
  }

  /** A sequence without duplicates is already in first-seen order. */
  lemma {:induction false} FirstSeenOfDistinct<T>(s: seq<T>)
    requires NoDuplicates(s)
    ensures FirstSeen(s) == s
  {
    if s != [] {
      var p := s[..|s| - 1];
      FirstSeenOfDistinct(p);
      assert s == p + [s[|s| - 1]];
    }
  }
}
