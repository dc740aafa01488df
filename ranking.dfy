/**
 * Ranking of scored entries as both `extract_topics` and `Counter.most_common`
 * do it: `sorted(items, key=score, reverse=True)[:n]`. Python's sort is stable,
 * also with `reverse=True`, so entries with equal scores keep their input order.
 * Scores are integers here: only their order matters.
 */
module Ranking {
  import opened Ordered

  /** Scores never increase along `s`. */
  predicate NonIncreasing<K>(s: seq<(K, int)>) {
    forall i, j :: 0 <= i < j < |s| ==> s[i].1 >= s[j].1
  }

  /** The entries of `s` whose score is `v`, in the order of `s`. */
  function WithScore<K>(s: seq<(K, int)>, v: int): (r: seq<(K, int)>)
    ensures |r| <= |s|
  {
    if s == [] then []
    else (if s[0].1 == v then [s[0]] else []) + WithScore(s[1..], v)
  }

  /** The keys of `s`, in order: `[w for w, s in entries]`. */
  function Keys<K>(s: seq<(K, int)>): (r: seq<K>)
    ensures |r| == |s|
    ensures forall i :: 0 <= i < |s| ==> r[i] == s[i].0
  {
    if s == [] then [] else [s[0].0] + Keys(s[1..])
  }

  lemma {:induction false} KeysAppend<K>(a: seq<(K, int)>, b: seq<(K, int)>)
    ensures Keys(a + b) == Keys(a) + Keys(b)
  {
    if a != [] {
      KeysAppend(a[1..], b);
      assert (a + b)[1..] == a[1..] + b;
    }
  }

  /** No key occurs twice in `s`. */
  predicate DistinctKeys<K(==)>(s: seq<(K, int)>) {
    forall i, j :: 0 <= i < j < |s| ==> s[i].0 != s[j].0
  }

  /** Puts `x` before the first entry of `t` whose score is not larger, so that
      it also goes before the entries that tie with it and came later. */
  function Insert<K>(x: (K, int), t: seq<(K, int)>): (r: seq<(K, int)>)
    ensures |r| == |t| + 1
  {
    if t == [] || t[0].1 <= x.1 then [x] + t
    else [t[0]] + Insert(x, t[1..])
  }

  /** `sorted(s, key=lambda e: e[1], reverse=True)` */
  function SortDesc<K>(s: seq<(K, int)>): (r: seq<(K, int)>)
    ensures |r| == |s|
  {
    if s == [] then [] else Insert(s[0], SortDesc(s[1..]))
  }

  function Min(a: int, b: int): int {
    if a <= b then a else b
  }

  /** `sorted(s, key=lambda e: e[1], reverse=True)[:n]` */
  function TopN<K>(s: seq<(K, int)>, n: nat): (r: seq<(K, int)>)
    ensures |r| == Min(n, |s|)
  {
    SortDesc(s)[..Min(n, |s|)]
  }

  /** `Insert` adds `x` and nothing else. */
  lemma {:induction false} InsertElems<K>(x: (K, int), t: seq<(K, int)>)
    ensures multiset(Insert(x, t)) == multiset(t) + multiset{x}
    ensures forall i :: 0 <= i < |Insert(x, t)| ==> Insert(x, t)[i] == x || Insert(x, t)[i] in t
  {
    if t != [] && t[0].1 > x.1 {
      InsertElems(x, t[1..]);
      assert t == [t[0]] + t[1..];
    }
  }

  lemma {:induction false} InsertSorted<K>(x: (K, int), t: seq<(K, int)>)
    requires NonIncreasing(t)
    ensures NonIncreasing(Insert(x, t))
  {
    if t != [] && t[0].1 > x.1 {
      var rest := Insert(x, t[1..]);
      InsertSorted(x, t[1..]);
      InsertElems(x, t[1..]);
      assert Insert(x, t) == [t[0]] + rest;
      forall j | 0 <= j < |rest| ensures t[0].1 >= rest[j].1 {
        if rest[j] != x {
          var k :| 0 <= k < |t[1..]| && t[1..][k] == rest[j];
          assert t[k + 1] == rest[j];
        }
      }
    }
  }

  /** `x` joins the entries with its score in front of them. */
  lemma {:induction false} InsertStable<K>(x: (K, int), t: seq<(K, int)>, v: int)
    ensures WithScore(Insert(x, t), v) == (if x.1 == v then [x] else []) + WithScore(t, v)
  {
    var r := Insert(x, t);
    if t == [] || t[0].1 <= x.1 {
      assert r[1..] == t;
    } else {
      InsertStable(x, t[1..], v);
      assert r[1..] == Insert(x, t[1..]);
    }
  }

  /** `sorted(..., reverse=True)` returns a permutation of its input, in
      non-increasing score order, and is stable: for every score, the entries
      with that score appear in their input order. */
  lemma {:induction false} SortDescSpec<K>(s: seq<(K, int)>)
    ensures NonIncreasing(SortDesc(s))
    ensures multiset(SortDesc(s)) == multiset(s)
    ensures forall v :: WithScore(SortDesc(s), v) == WithScore(s, v)
  {
    if s != [] {
      SortDescSpec(s[1..]);
      InsertSorted(s[0], SortDesc(s[1..]));
      InsertElems(s[0], SortDesc(s[1..]));
      assert s == [s[0]] + s[1..];
      forall v ensures WithScore(SortDesc(s), v) == WithScore(s, v) {
        InsertStable(s[0], SortDesc(s[1..]), v);
      }
    }
  }

  lemma {:induction false} InsertKeys<K>(x: (K, int), t: seq<(K, int)>)
    requires DistinctKeys(t)
    requires forall i :: 0 <= i < |t| ==> t[i].0 != x.0
    ensures DistinctKeys(Insert(x, t))
    ensures forall i :: 0 <= i < |Insert(x, t)| ==> Insert(x, t)[i] == x || Insert(x, t)[i] in t
  {
    if t != [] && t[0].1 > x.1 {
      InsertKeys(x, t[1..]);
      var r := Insert(x, t);
      assert r == [t[0]] + Insert(x, t[1..]);
      forall i, j | 0 <= i < j < |r| ensures r[i].0 != r[j].0 {
        if i == 0 {
          if r[j] != x {
            assert r[j] in t[1..];
          }
        }
      }
    }
  }

  /** Sorting keeps keys distinct: `sorted(d.items(), ...)` lists each key of a dict once. */
  lemma {:induction false} SortDescKeys<K>(s: seq<(K, int)>)
    requires DistinctKeys(s)
    ensures DistinctKeys(SortDesc(s))
    ensures forall i :: 0 <= i < |s| ==> SortDesc(s)[i] in s
  {
    if s != [] {
      SortDescKeys(s[1..]);
      forall i | 0 <= i < |SortDesc(s[1..])| ensures SortDesc(s[1..])[i].0 != s[0].0 {
        var k :| 0 <= k < |s[1..]| && s[1..][k] == SortDesc(s[1..])[i];
        assert s[k + 1] == s[1..][k];
      }
      InsertKeys(s[0], SortDesc(s[1..]));
    }
  }

  lemma {:induction false} WithScorePrefix<K>(s: seq<(K, int)>, m: nat, v: int)
    requires m <= |s|
    ensures WithScore(s[..m], v) <= WithScore(s, v)
  {
    if m > 0 {
      WithScorePrefix(s[1..], m - 1, v);
      assert s[..m][1..] == s[1..][..m - 1];
    }
  }

  /** What `sorted(...)[:n]` returns: at most `n` entries, all from the input, in
      non-increasing score order. */
  lemma TopNSorted<K>(s: seq<(K, int)>, n: nat)
    ensures |TopN(s, n)| == Min(n, |s|)
    ensures NonIncreasing(TopN(s, n))
    ensures multiset(TopN(s, n)) <= multiset(s)
  {
    var r := SortDesc(s);
    var m := Min(n, |s|);
    SortDescSpec(s);
    assert r == r[..m] + r[m..];
    assert multiset(r) == multiset(r[..m]) + multiset(r[m..]);
  }

  /** None of the entries `sorted(...)[:n]` leaves out scores higher than any entry it keeps. */
  lemma TopNSelectsHighest<K>(s: seq<(K, int)>, n: nat)
    ensures forall e, i :: e in s && e !in TopN(s, n) && 0 <= i < |TopN(s, n)| ==> TopN(s, n)[i].1 >= e.1
  {
    var r := SortDesc(s);
    var m := Min(n, |s|);
    SortDescSpec(s);
    forall e, i | e in s && e !in TopN(s, n) && 0 <= i < |TopN(s, n)| ensures TopN(s, n)[i].1 >= e.1 {
      assert e in multiset(r);
      var j :| 0 <= j < |r| && r[j] == e;
    }
  }

  /** Ties are cut in input order: for every score, the entries `sorted(...)[:n]`
      keeps with that score are the first entries of the input with that score. */
  lemma TopNTies<K>(s: seq<(K, int)>, n: nat)
    ensures forall v :: WithScore(TopN(s, n), v) <= WithScore(s, v)
  {
    SortDescSpec(s);
    forall v ensures WithScore(TopN(s, n), v) <= WithScore(s, v) {
      WithScorePrefix(SortDesc(s), Min(n, |s|), v);
    }
  }

  /** When keys are distinct, so are the keys `[w for w, s in sorted(...)[:n]]`. */
  lemma TopNKeys<K>(s: seq<(K, int)>, n: nat)
    requires DistinctKeys(s)
    ensures NoDuplicates(Keys(TopN(s, n)))
    ensures forall i :: 0 <= i < |TopN(s, n)| ==> TopN(s, n)[i] in s
  {
    SortDescKeys(s);
  }
}
