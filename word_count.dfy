/**
 * Word frequencies of a paper: `Counter(words)` and `most_common(k)`.
 * A `Counter` is a dict, so its items come in first-seen order, and
 * `most_common(k)` is `sorted(items, key=count, reverse=True)[:k]`, so
 * words with equal counts stay in the order they were first encountered.
 */
module WordCount {
  import opened Ordered
  import opened Ranking

  /** Each word of `d` with its number of occurrences in `m`. */
  function WithCounts(d: seq<string>, m: multiset<string>): (r: seq<(string, int)>)
    ensures |r| == |d|
    ensures forall i :: 0 <= i < |d| ==> r[i] == (d[i], m[d[i]])
  {
    if d == [] then [] else WithCounts(d[..|d| - 1], m) + [(d[|d| - 1], m[d[|d| - 1]])]
  }

  /** `Counter(words).items()`: every distinct word once, in first-seen order, with its count. */
  function CounterItems(words: seq<string>): (r: seq<(string, int)>)
    ensures |r| <= |words|
  {
    WithCounts(FirstSeen(words), multiset(words))
  }

  /** `counter[w]`: the count of `w`, and 0 for a word the counter has not seen. */
  function CounterGet(items: seq<(string, int)>, w: string): int {
    if items == [] then 0
    else if items[0].0 == w then items[0].1
    else CounterGet(items[1..], w)
  }

  /** The sum of the counts: `sum(counter.values())`. */
  function Total(items: seq<(string, int)>): int {
    if items == [] then 0 else Total(items[..|items| - 1]) + items[|items| - 1].1
  }

  /** `Counter(words).most_common(k)` */
  function MostCommon(words: seq<string>, k: nat): (r: seq<(string, int)>)
    ensures |r| <= k
  {
    TopN(CounterItems(words), k)
  }

  /** The dict a `Counter` holds after reading `s`: each word read maps to the
      number of times it was read. */
  function CountMap(s: seq<string>): map<string, int> {
    if s == [] then map[]
    else
      var m := CountMap(s[..|s| - 1]);
      var w := s[|s| - 1];
      m[w := (if w in m then m[w] else 0) + 1]
  }

  /** The counter's dict holds exactly the words read, each with its number of occurrences. */
  lemma {:induction false} CountMapSpec(s: seq<string>, w: string)
    ensures w in CountMap(s) <==> w in s
    ensures w in CountMap(s) ==> CountMap(s)[w] == multiset(s)[w]
  {
    if s != [] {
      var p := s[..|s| - 1];
      CountMapSpec(p, w);
      assert s == p + [s[|s| - 1]];
    }
  }

  /** `Counter(words)`: one pass over the words, adding one to the count of each
      (a new word starts at one and takes the next place in the dict). */
  method CountWords(words: seq<string>) returns (items: seq<(string, int)>)
    ensures items == CounterItems(words)
  {
    var counts: map<string, int> := map[];
    var order: seq<string> := [];
    for i := 0 to |words|
      invariant order == FirstSeen(words[..i])
      invariant counts == CountMap(words[..i])
    {
      var w := words[i];
      assert words[..i + 1] == words[..i] + [w];
      assert words[..i + 1][..i] == words[..i];
      CountMapSpec(words[..i], w);
      FirstSeenMembers(words[..i], w);
      if w in counts {
        counts := counts[w := counts[w] + 1];
      } else {
        counts := counts[w := 1];
        order := order + [w];
      }
    }
    assert words[..|words|] == words;
    forall j | 0 <= j < |order| ensures order[j] in counts && counts[order[j]] == multiset(words)[order[j]] {
      FirstSeenMembers(words, order[j]);
      CountMapSpec(words, order[j]);
    }
    // `.items()`: the keys in insertion order, each with its count
    items := seq(|order|, j requires 0 <= j < |order| => (order[j], counts[order[j]]));
  }

  lemma {:induction false} CounterGetWithCounts(d: seq<string>, m: multiset<string>, w: string)
    requires NoDuplicates(d)
    ensures CounterGet(WithCounts(d, m), w) == if w in d then m[w] else 0
  {
    if d != [] {
      var r := WithCounts(d, m);
      assert r[1..] == WithCounts(d[1..], m);
      CounterGetWithCounts(d[1..], m, w);
      assert d == [d[0]] + d[1..];
    }
  }

  /** The counter holds every word of `words` with its number of occurrences,
      lists each word once in first-seen order, and answers 0 for any other word. */
  lemma CounterItemsSpec(words: seq<string>, w: string)
    ensures Keys(CounterItems(words)) == FirstSeen(words)
    ensures DistinctKeys(CounterItems(words))
    ensures CounterGet(CounterItems(words), w) == multiset(words)[w]
    ensures forall i :: 0 <= i < |CounterItems(words)| ==> CounterItems(words)[i].1 >= 1
  {
    var d := FirstSeen(words);
    CounterGetWithCounts(d, multiset(words), w);
    FirstSeenMembers(words, w);
    FirstSeenOrder(words);
    forall i | 0 <= i < |d| ensures multiset(words)[d[i]] >= 1 {
      assert d[i] in words;
    }
  }

  lemma {:induction false} TotalWithCountsAdd(d: seq<string>, m: multiset<string>, x: string)
    requires NoDuplicates(d)
    ensures Total(WithCounts(d, m + multiset{x})) == Total(WithCounts(d, m)) + (if x in d then 1 else 0)
  {
    if d != [] {
      var n := |d| - 1;
      TotalWithCountsAdd(d[..n], m, x);
      assert WithCounts(d, m)[..n] == WithCounts(d[..n], m);
      assert WithCounts(d, m + multiset{x})[..n] == WithCounts(d[..n], m + multiset{x});
      assert d == d[..n] + [d[n]];
    }
  }

  /** The counts add up to the number of words `split()` produced. */
  lemma {:induction false} CounterTotal(words: seq<string>)
    ensures Total(CounterItems(words)) == |words|
  {
    if words != [] {
      var n := |words| - 1;
      var p := words[..n];
      var x := words[n];
      assert words == p + [x];
      CounterTotal(p);
      var d := FirstSeen(p);
      FirstSeenMembers(p, x);
      TotalWithCountsAdd(d, multiset(p), x);
      if x !in d {
        assert multiset(p)[x] == 0;
        var e := WithCounts(d + [x], multiset(words));
        assert e[..|d|] == WithCounts(d, multiset(words));
      }
    }
  }

  /** What `most_common(k)` returns: at most `k` distinct words of the text (as
      many as `k` allows), each with its number of occurrences, in non-increasing
      count order. */
  lemma MostCommonSpec(words: seq<string>, k: nat)
    ensures |MostCommon(words, k)| == Min(k, |FirstSeen(words)|)
    ensures NoDuplicates(Keys(MostCommon(words, k)))
    ensures forall i :: 0 <= i < |MostCommon(words, k)| ==>
              MostCommon(words, k)[i].0 in words &&
              MostCommon(words, k)[i].1 == multiset(words)[MostCommon(words, k)[i].0]
    ensures NonIncreasing(MostCommon(words, k))
  {
    var items := CounterItems(words);
    CounterItemsSpec(words, "");
    TopNSorted(items, k);
    TopNKeys(items, k);
  }

  /** No word left out of `most_common(k)` occurs more often than a word it returns. */
  lemma MostCommonSelects(words: seq<string>, k: nat)
    ensures forall w, i :: w in words && w !in Keys(MostCommon(words, k)) && 0 <= i < |MostCommon(words, k)| ==>
              MostCommon(words, k)[i].1 >= multiset(words)[w]
  {
    var items := CounterItems(words);
    var r := MostCommon(words, k);
    TopNSelectsHighest(items, k);
    forall w, i | w in words && w !in Keys(r) && 0 <= i < |r| ensures r[i].1 >= multiset(words)[w] {
      FirstSeenMembers(words, w);
      var j :| 0 <= j < |FirstSeen(words)| && FirstSeen(words)[j] == w;
      assert items[j] == (w, multiset(words)[w]);
      assert items[j] !in r;
    }
  }

  /** Words with equal counts come in the order they were first encountered, and
      where `k` cuts through a tie the earliest ones are kept. */
  lemma MostCommonTies(words: seq<string>, k: nat)
    ensures forall v :: WithScore(MostCommon(words, k), v) <= WithScore(CounterItems(words), v)
    ensures Keys(CounterItems(words)) == FirstSeen(words)
  {
    CounterItemsSpec(words, "");
    TopNTies(CounterItems(words), k);
  }
}
