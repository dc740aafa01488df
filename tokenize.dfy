/**
 * `str.split()` with no separator: the maximal runs of non-whitespace
 * characters, in order; leading, trailing and repeated whitespace yields
 * no empty tokens.
 */
module Tokenize {
  import opened TextClean

  /** A token `split()` can produce: non-empty and free of whitespace. */
  predicate IsToken(w: string) {
    w != [] && forall i :: 0 <= i < |w| ==> !IsSpace(w[i])
  }

  predicate AllTokens(ws: seq<string>) {
    forall k :: 0 <= k < |ws| ==> IsToken(ws[k])
  }

  /** The word being read, emitted when it is not empty. */
  function Flush(cur: string): seq<string> {
    if cur == [] then [] else [cur]
  }

  /** Scans `s` left to right; `cur` is the part of the current word already read. */
  function SplitFrom(s: string, cur: string): (ws: seq<string>)
    requires forall i :: 0 <= i < |cur| ==> !IsSpace(cur[i])
    ensures AllTokens(ws)
    decreases |s|
  {
    if s == [] then Flush(cur)
    else if IsSpace(s[0]) then Flush(cur) + SplitFrom(s[1..], [])
    else SplitFrom(s[1..], cur + [s[0]])
  }

  /** `s.split()`: every word is non-empty and free of whitespace. */
  function Split(s: string): (ws: seq<string>)
    ensures AllTokens(ws)
  {
    SplitFrom(s, [])
  }

  /** `" ".join(ws)` */
  function JoinSpace(ws: seq<string>): string {
    if ws == [] then []
    else if |ws| == 1 then ws[0]
    else ws[0] + " " + JoinSpace(ws[1..])
  }

  /** A whitespace character ends the word being read and starts a fresh scan. */
  lemma {:induction false} SplitFromAppendSep(a: string, c: char, b: string, cur: string)
    requires IsSpace(c)
    requires forall i :: 0 <= i < |cur| ==> !IsSpace(cur[i])
    ensures SplitFrom(a + [c] + b, cur) == SplitFrom(a, cur) + Split(b)
    decreases |a|
  {
    if a == [] {
      assert a + [c] + b == [c] + b;
      assert ([c] + b)[1..] == b;
    } else {
      assert (a + [c] + b)[0] == a[0];
      assert (a + [c] + b)[1..] == a[1..] + [c] + b;
      if IsSpace(a[0]) {
        SplitFromAppendSep(a[1..], c, b, []);
      } else {
        SplitFromAppendSep(a[1..], c, b, cur + [a[0]]);
      }
    }
  }

  /** Splitting two texts glued together by a whitespace character gives the
      words of each part, in order: no word runs across the separator. */
  lemma SplitAppendSep(a: string, c: char, b: string)
    requires IsSpace(c)
    ensures Split(a + [c] + b) == Split(a) + Split(b)
  {
    SplitFromAppendSep(a, c, b, []);
  }

  lemma {:induction false} SplitFromWord(w: string, cur: string)
    requires forall i :: 0 <= i < |cur| ==> !IsSpace(cur[i])
    requires forall i :: 0 <= i < |w| ==> !IsSpace(w[i])
    ensures SplitFrom(w, cur) == Flush(cur + w)
    decreases |w|
  {
    if w == [] {
      assert cur + w == cur;
    } else {
      SplitFromWord(w[1..], cur + [w[0]]);
      assert cur + [w[0]] + w[1..] == cur + w;
    }
  }

  /** A single token splits to itself. */
  lemma SplitToken(w: string)
    requires IsToken(w)
    ensures Split(w) == [w]
  {
    SplitFromWord(w, []);
    assert [] + w == w;
  }

  /** Splitting undoes `" ".join` on a list of tokens. */
  lemma {:induction false} SplitJoinSpace(ws: seq<string>)
    requires AllTokens(ws)
    ensures Split(JoinSpace(ws)) == ws
  {
    if ws == [] {
    } else if |ws| == 1 {
      SplitToken(ws[0]);
    } else {
      SplitJoinSpace(ws[1..]);
      SplitAppendSep(ws[0], ' ', JoinSpace(ws[1..]));
      SplitToken(ws[0]);
      assert ws == [ws[0]] + ws[1..];
    }
  }

  lemma {:induction false} SplitFromCleanLetters(s: string, cur: string)
    requires forall i :: 0 <= i < |s| ==> IsKept(s[i])
    requires forall i :: 0 <= i < |cur| ==> IsLowerLetter(cur[i]) && !IsSpace(cur[i])
    ensures forall k, i :: 0 <= k < |SplitFrom(s, cur)| && 0 <= i < |SplitFrom(s, cur)[k]| ==>
              IsLowerLetter(SplitFrom(s, cur)[k][i])
    decreases |s|
  {
    if s != [] {
      if IsSpace(s[0]) {
        SplitFromCleanLetters(s[1..], []);
      } else {
        SplitFromCleanLetters(s[1..], cur + [s[0]]);
      }
    }
  }

  /** The words of a cleaned paper are non-empty runs of the letters a to z. */
  lemma CleanTextTokensAreLetters(text: string)
    ensures forall k, i :: 0 <= k < |Split(CleanText(text))| && 0 <= i < |Split(CleanText(text))[k]| ==>
              IsLowerLetter(Split(CleanText(text))[k][i])
  {
    StripDisallowedKept(Lower(text));
    SplitFromCleanLetters(CleanText(text), []);
  }
}
