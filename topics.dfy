/**
 * `extract_topics`: the fitted TF-IDF vectorizer yields its feature names and
 * their scores; these are zipped into a dict, whose items are sorted by score,
 * highest first, and the first `top_n` terms are returned.
 */
module Topics {
  import opened Ordered
  import opened Ranking

  /** What the vectorizer exposes after `fit_transform([text])`:
      `get_feature_names_out()` and the single row of scores. */
  datatype Features = Features(names: seq<string>, scores: seq<int>)

  /** `zip(words, scores)`: pairs up to the shorter of the two. */
  function Zip(ws: seq<string>, xs: seq<int>): (r: seq<(string, int)>)
    ensures |r| == Min(|ws|, |xs|)
    ensures forall i :: 0 <= i < |r| ==> r[i] == (ws[i], xs[i])
  {
    if ws == [] || xs == [] then [] else [(ws[0], xs[0])] + Zip(ws[1..], xs[1..])
  }

  /** Where key `k` sits among the items of a dict, or `|items|` when absent. */
  function IndexOfKey(items: seq<(string, int)>, k: string): (i: nat)
    ensures i <= |items|
    ensures i < |items| ==> items[i].0 == k
    ensures forall j :: 0 <= j < i ==> items[j].0 != k
  {
    if items == [] then 0
    else if items[0].0 == k then 0
    else 1 + IndexOfKey(items[1..], k)
  }

  /** `d[k] = v`: an existing key keeps its place and takes the new value,
      a new key goes last. */
  function DictPut(items: seq<(string, int)>, k: string, v: int): seq<(string, int)> {
    var i := IndexOfKey(items, k);
    if i < |items| then items[i := (k, v)] else items + [(k, v)]
  }

  /** `dict(pairs).items()` */
  function DictFromPairs(ps: seq<(string, int)>): seq<(string, int)> {
    if ps == [] then []
    else DictPut(DictFromPairs(ps[..|ps| - 1]), ps[|ps| - 1].0, ps[|ps| - 1].1)
  }

  /** The value of the last pair with key `k`: the one `dict` keeps. */
  function LastValue(ps: seq<(string, int)>, k: string): int
    requires k in Keys(ps)
  {
    var n := |ps| - 1;
    if ps[n].0 == k then ps[n].1
    else
      assert Keys(ps) == Keys(ps[..n]) + [ps[n].0];
      LastValue(ps[..n], k)
  }

  /** The scored features, best first: `sorted(word_scores.items(), ...)[:top_n]`. */
  function RankedFeatures(f: Features, topN: nat): seq<(string, int)> {
    TopN(DictFromPairs(Zip(f.names, f.scores)), topN)
  }

  /** `extract_topics(text, top_n)` once the vectorizer has produced `f` for `text`. */
  function ExtractTopics(f: Features, topN: nat): (r: seq<string>)
    ensures |r| <= topN
  {
    Keys(RankedFeatures(f, topN))
  }

  lemma {:induction false} DictPutKeys(items: seq<(string, int)>, k: string, v: int)
    ensures Keys(DictPut(items, k, v)) == if k in Keys(items) then Keys(items) else Keys(items) + [k]
  {
    var i := IndexOfKey(items, k);
    if i == |items| {
      assert k !in Keys(items);
      assert Keys(items + [(k, v)]) == Keys(items) + [k];
    } else {
      assert k in Keys(items);
      assert Keys(items[i := (k, v)]) == Keys(items);
    }
  }

  /** A dict lists each key once, in the order keys first occur among the pairs. */
  lemma {:induction false} DictFromPairsKeys(ps: seq<(string, int)>)
    ensures Keys(DictFromPairs(ps)) == FirstSeen(Keys(ps))
    ensures DistinctKeys(DictFromPairs(ps))
  {
    DictFromPairsKeyOrder(ps);
    var r := DictFromPairs(ps);
    assert NoDuplicates(Keys(r));
  }

  lemma {:induction false} DictFromPairsKeyOrder(ps: seq<(string, int)>)
    ensures Keys(DictFromPairs(ps)) == FirstSeen(Keys(ps))
  {
    if ps != [] {
      var n := |ps| - 1;
      var ks := Keys(ps);
      var d := DictFromPairs(ps[..n]);
      var k := ps[n].0;
      var pre := Keys(ps[..n]);
      assert DictFromPairs(ps) == DictPut(d, k, ps[n].1);
      DictFromPairsKeyOrder(ps[..n]);
      assert Keys(d) == FirstSeen(pre);
      DictPutKeys(d, k, ps[n].1);
      assert ps == ps[..n] + [ps[n]];
      KeysAppend(ps[..n], [ps[n]]);
      FirstSeenSnoc(pre, k);
      FirstSeenMembers(pre, k);
      if k in pre {
        assert Keys(DictFromPairs(ps)) == Keys(d);
      } else {
        assert Keys(DictFromPairs(ps)) == Keys(d) + [k];
      }
    }
  }

  lemma {:induction false} DictPutValues(items: seq<(string, int)>, k: string, v: int)
    requires DistinctKeys(items)
    ensures forall i :: 0 <= i < |DictPut(items, k, v)| ==>
              if DictPut(items, k, v)[i].0 == k then DictPut(items, k, v)[i].1 == v
              else i < |items| && DictPut(items, k, v)[i] == items[i]
  {
  }

  /** Each key of the dict carries the score of the last pair with that key. */
  lemma {:induction false} DictFromPairsValues(ps: seq<(string, int)>)
    ensures forall i :: 0 <= i < |DictFromPairs(ps)| ==>
              DictFromPairs(ps)[i].0 in Keys(ps) &&
              DictFromPairs(ps)[i].1 == LastValue(ps, DictFromPairs(ps)[i].0)
  {
    if ps != [] {
      var n := |ps| - 1;
      var d := DictFromPairs(ps[..n]);
      DictFromPairsValues(ps[..n]);
      DictFromPairsKeys(ps[..n]);
      DictPutValues(d, ps[n].0, ps[n].1);
      assert Keys(ps)[..n] == Keys(ps[..n]);
      forall i | 0 <= i < |DictFromPairs(ps)|
        ensures DictFromPairs(ps)[i].0 in Keys(ps)
        ensures DictFromPairs(ps)[i].1 == LastValue(ps, DictFromPairs(ps)[i].0)
      {
        var e := DictFromPairs(ps)[i];
        if e.0 != ps[n].0 {
          assert e == d[i];
          assert e.0 in Keys(ps[..n]);
        }
      }
    }
  }

  /** With distinct keys, `dict(pairs).items()` gives the pairs back unchanged. */
  lemma {:induction false} DictFromDistinctPairs(ps: seq<(string, int)>)
    requires DistinctKeys(ps)
    ensures DictFromPairs(ps) == ps
  {
    if ps != [] {
      var n := |ps| - 1;
      DictFromDistinctPairs(ps[..n]);
      var i := IndexOfKey(ps[..n], ps[n].0);
      assert i == n;
      assert ps == ps[..n] + [ps[n]];
    }
  }

  /** `extract_topics` returns at most `top_n` terms, none twice: as many as
      `top_n` allows of the distinct feature names. */
  lemma ExtractTopicsBounds(f: Features, topN: nat)
    ensures |ExtractTopics(f, topN)| == Min(topN, |FirstSeen(Keys(Zip(f.names, f.scores)))|)
    ensures |ExtractTopics(f, topN)| <= topN
    ensures NoDuplicates(ExtractTopics(f, topN))
  {
    var ps := Zip(f.names, f.scores);
    DictFromPairsKeys(ps);
    TopNKeys(DictFromPairs(ps), topN);
  }

  lemma {:induction false} ZipKeys(ws: seq<string>, xs: seq<int>, x: string)
    requires x in Keys(Zip(ws, xs))
    ensures x in ws
  {
    var k :| 0 <= k < |Zip(ws, xs)| && Keys(Zip(ws, xs))[k] == x;
    assert ws[k] == x;
  }

  /** Every term `extract_topics` returns is one of the vectorizer's feature names. */
  lemma ExtractTopicsAreFeatures(f: Features, topN: nat)
    ensures forall i :: 0 <= i < |ExtractTopics(f, topN)| ==> ExtractTopics(f, topN)[i] in f.names
  {
    var ps := Zip(f.names, f.scores);
    var d := DictFromPairs(ps);
    var r := RankedFeatures(f, topN);
    DictFromPairsKeys(ps);
    DictFromPairsValues(ps);
    TopNKeys(d, topN);
    forall i | 0 <= i < |r| ensures r[i].0 in f.names {
      var j :| 0 <= j < |d| && d[j] == r[i];
      ZipKeys(f.names, f.scores, d[j].0);
    }
  }

  /** For the vectorizer's real output (one score per name, names distinct):
      exactly `min(top_n, #features)` terms, each with its own score, in
      non-increasing score order; no feature left out scores higher than a
      term returned; and among equal scores, terms come in feature order and
      the cut keeps the earliest. */
  lemma ExtractTopicsRanking(f: Features, topN: nat)
    requires |f.names| == |f.scores| && NoDuplicates(f.names)
    ensures |ExtractTopics(f, topN)| == Min(topN, |f.names|)
    ensures ExtractTopics(f, topN) == Keys(RankedFeatures(f, topN))
    ensures forall i :: 0 <= i < |RankedFeatures(f, topN)| ==>
              RankedFeatures(f, topN)[i] in Zip(f.names, f.scores)
    ensures NonIncreasing(RankedFeatures(f, topN))
    ensures forall k, i ::
              (0 <= k < |f.names| && f.names[k] !in ExtractTopics(f, topN) && 0 <= i < |RankedFeatures(f, topN)|)
              ==> RankedFeatures(f, topN)[i].1 >= f.scores[k]
    ensures forall v :: WithScore(RankedFeatures(f, topN), v) <= WithScore(Zip(f.names, f.scores), v)
  {
    var ps := Zip(f.names, f.scores);
    assert DistinctKeys(ps);
    DictFromDistinctPairs(ps);
    TopNSorted(ps, topN);
    TopNKeys(ps, topN);
    TopNSelectsHighest(ps, topN);
    TopNTies(ps, topN);
    var r := RankedFeatures(f, topN);
    forall k, i | 0 <= k < |f.names| && f.names[k] !in ExtractTopics(f, topN) && 0 <= i < |r|
      ensures r[i].1 >= f.scores[k]
    {
      assert ps[k] in ps;
    }
  }
}
