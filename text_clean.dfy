/**
 * Text normalisation of an uploaded paper: `clean_text` lowercases the
 * extracted text and then deletes every character outside the class
 * `[a-z\s]`.
 */
module TextClean {

  /** Whitespace as Python's `str.split()` and the regex class `\s` both see it
      (the characters for which `str.isspace()` holds). */
  predicate IsSpace(c: char) {
    || ('\t' <= c <= '\r')                  // tab, line feed, vertical tab, form feed, carriage return
    || ('\U{1C}' <= c <= '\U{1F}')          // file, group, record and unit separators
    || c == ' '
    || c == '\U{85}' || c == '\U{A0}' || c == '\U{1680}'
    || ('\U{2000}' <= c <= '\U{200A}')
    || c == '\U{2028}' || c == '\U{2029}' || c == '\U{202F}' || c == '\U{205F}'
    || c == '\U{3000}'
  }

  predicate IsLowerLetter(c: char) {
    'a' <= c <= 'z'
  }

  predicate IsUpperLetter(c: char) {
    'A' <= c <= 'Z'
  }

  /** The characters that survive `re.sub(r'[^a-z\s]', '', text)`. */
  predicate IsKept(c: char) {
    IsLowerLetter(c) || IsSpace(c)
  }

  /** `str.lower()` on one character, over ASCII. */
  function LowerChar(c: char): (d: char)
    ensures IsUpperLetter(c) ==> IsLowerLetter(d) && d as int - 'a' as int == c as int - 'A' as int
    ensures !IsUpperLetter(c) ==> d == c
    ensures !IsUpperLetter(d)
  {
    if IsUpperLetter(c) then ('a' as int + (c as int - 'A' as int)) as char else c
  }

  /** `text.lower()` */
  function Lower(s: string): (r: string)
    ensures |r| == |s|
    ensures forall i :: 0 <= i < |s| ==> r[i] == LowerChar(s[i])
  {
    if s == [] then [] else [LowerChar(s[0])] + Lower(s[1..])
  }

  /** `re.sub(r'[^a-z\s]', '', text)`: the characters of `s` that are kept, in order. */
  function StripDisallowed(s: string): (r: string)
    ensures |r| <= |s|
  {
    if s == [] then []
    else if IsKept(s[0]) then [s[0]] + StripDisallowed(s[1..])
    else StripDisallowed(s[1..])
  }

  /** Only characters of the class `[a-z\s]` survive the substitution. */
  lemma {:induction false} StripDisallowedKept(s: string)
    ensures forall i :: 0 <= i < |StripDisallowed(s)| ==> IsKept(StripDisallowed(s)[i])
    decreases |s|
  {
    if s != [] {
      StripDisallowedKept(s[1..]);
    }
  }

  /** `clean_text(text)`: never longer than the text. */
  function CleanText(s: string): (r: string)
    ensures |r| <= |s|
  {
    StripDisallowed(Lower(s))
  }

  /** Every character of a cleaned text is a letter a-z or whitespace. */
  lemma CleanTextAlphabet(s: string)
    ensures forall i :: 0 <= i < |CleanText(s)| ==> IsLowerLetter(CleanText(s)[i]) || IsSpace(CleanText(s)[i])
  {
    StripDisallowedKept(Lower(s));
  }

  /** `sub` occurs in `s` in the same order, possibly with gaps. */
  predicate IsSubsequence(sub: string, s: string)
    decreases |s|
  {
    if sub == [] then true
    else if s == [] then false
    else if sub[0] == s[0] then IsSubsequence(sub[1..], s[1..])
    else IsSubsequence(sub, s[1..])
  }

  lemma {:induction false} StripDisallowedIsSubsequence(s: string)
    ensures IsSubsequence(StripDisallowed(s), s)
    decreases |s|
  {
    if s != [] {
      StripDisallowedIsSubsequence(s[1..]);
      if !IsKept(s[0]) {
        SubsequenceOfTail(StripDisallowed(s[1..]), s);
      }
    }
  }

  lemma {:induction false} SubsequenceOfTail(sub: string, s: string)
    requires s != [] && IsSubsequence(sub, s[1..])
    ensures IsSubsequence(sub, s)
    decreases |s|, 1
  {
    if sub != [] && sub[0] == s[0] {
      // the first character of sub matches here; its tail is a subsequence of s[2..] at least
      SubsequenceDropHead(sub, s[1..]);
    }
  }

  lemma {:induction false} SubsequenceDropHead(sub: string, s: string)
    requires sub != [] && IsSubsequence(sub, s)
    ensures IsSubsequence(sub[1..], s)
    decreases |s|, 2
  {
    if sub[0] == s[0] {
      if sub[1..] != [] {
        SubsequenceDropHead(sub[1..], s[1..]);
        SubsequenceOfTail(sub[1..], s);
      }
    } else {
      SubsequenceDropHead(sub, s[1..]);
      if sub[1..] != [] {
        SubsequenceOfTail(sub[1..], s);
      }
    }
  }

  /** Every kept character of `s` survives, as often as it occurs; every other character is gone. */
  lemma {:induction false} StripDisallowedCounts(s: string, c: char)
    ensures multiset(StripDisallowed(s))[c] == if IsKept(c) then multiset(s)[c] else 0
    decreases |s|
  {
    if s != [] {
      StripDisallowedCounts(s[1..], c);
      assert s == [s[0]] + s[1..];
    }
  }

  /** `clean_text` keeps the order of the lowercased text: its result is a subsequence of it. */
  lemma {:induction false} CleanTextIsSubsequence(s: string)
    ensures IsSubsequence(CleanText(s), Lower(s))
  {
    StripDisallowedIsSubsequence(Lower(s));
  }

  /** `clean_text` never drops a letter or a whitespace character: every lowercase
      letter and whitespace character of the lowercased text is still there, as often,
      and nothing else is. */
  lemma {:induction false} CleanTextCounts(s: string, c: char)
    ensures multiset(CleanText(s))[c] == if IsKept(c) then multiset(Lower(s))[c] else 0
  {
    StripDisallowedCounts(Lower(s), c);
  }

  /** The subsequence, count and alphabet properties pin the result down: any string
      that has them is `StripDisallowed(t)`. */
  lemma {:induction false} StripDisallowedUnique(r: string, t: string)
    requires IsSubsequence(r, t)
    requires forall i :: 0 <= i < |r| ==> IsKept(r[i])
    requires forall c :: IsKept(c) ==> multiset(r)[c] == multiset(t)[c]
    ensures r == StripDisallowed(t)
    decreases |t|
  {
    if t == [] {
    } else if !IsKept(t[0]) {
      assert t == [t[0]] + t[1..];
      if r != [] && r[0] == t[0] {
        assert false;
      }
      SubsequenceNotHead(r, t);
      forall c | IsKept(c) ensures multiset(r)[c] == multiset(t[1..])[c] {
        assert c != t[0];
      }
      StripDisallowedUnique(r, t[1..]);
    } else {
      assert t == [t[0]] + t[1..];
      // t[0] is kept, so r must start with it: otherwise r would miss one copy of t[0]
      if r == [] || r[0] != t[0] {
        assert IsSubsequence(r, t[1..]) by {
          if r != [] { assert r[0] != t[0]; }
        }
        SubsequenceCountBound(r, t[1..], t[0]);
        assert false;
      }
      assert r == [r[0]] + r[1..];
      forall c | IsKept(c) ensures multiset(r[1..])[c] == multiset(t[1..])[c] {
      }
      StripDisallowedUnique(r[1..], t[1..]);
    }
  }

  lemma {:induction false} SubsequenceNotHead(r: string, t: string)
    requires t != [] && IsSubsequence(r, t) && (r == [] || r[0] != t[0])
    ensures IsSubsequence(r, t[1..])
  {
  }

  lemma {:induction false} SubsequenceCountBound(r: string, t: string, c: char)
    requires IsSubsequence(r, t)
    ensures multiset(r)[c] <= multiset(t)[c]
    decreases |t|
  {
    if r != [] {
      assert t != [];
      assert t == [t[0]] + t[1..];
      if r[0] == t[0] {
        assert r == [r[0]] + r[1..];
        SubsequenceCountBound(r[1..], t[1..], c);
      } else {
        SubsequenceCountBound(r, t[1..], c);
      }
    }
  }

  lemma {:induction false} LowerOfKept(s: string)
    requires forall i :: 0 <= i < |s| ==> IsKept(s[i])
    ensures Lower(s) == s
  {
  }

  lemma {:induction false} StripDisallowedOfKept(s: string)
    requires forall i :: 0 <= i < |s| ==> IsKept(s[i])
    ensures StripDisallowed(s) == s
    decreases |s|
  {
    if s != [] {
      StripDisallowedOfKept(s[1..]);
    }
  }

  lemma {:induction false} LowerAppend(a: string, b: string)
    ensures Lower(a + b) == Lower(a) + Lower(b)
    decreases |a|
  {
    if a == [] {
      assert a + b == b;
    } else {
      assert (a + b)[0] == a[0];
      assert (a + b)[1..] == a[1..] + b;
      LowerAppend(a[1..], b);
    }
  }

  lemma {:induction false} StripDisallowedAppend(a: string, b: string)
    ensures StripDisallowed(a + b) == StripDisallowed(a) + StripDisallowed(b)
    decreases |a|
  {
    if a == [] {
      assert a + b == b;
    } else {
      assert (a + b)[0] == a[0];
      assert (a + b)[1..] == a[1..] + b;
      StripDisallowedAppend(a[1..], b);
    }
  }

  /** Cleaning works character by character: cleaning two texts one after the
      other gives the cleaned concatenation, and whitespace survives as is. */
  lemma {:induction false} CleanTextAppend(a: string, b: string)
    ensures CleanText(a + b) == CleanText(a) + CleanText(b)
    ensures forall c :: IsSpace(c) ==> CleanText([c]) == [c]
  {
    LowerAppend(a, b);
    StripDisallowedAppend(Lower(a), Lower(b));
  }

  /** `clean_text` is idempotent. */
  lemma CleanTextIdempotent(s: string)
    ensures CleanText(CleanText(s)) == CleanText(s)
  {
    var c := CleanText(s);
    StripDisallowedKept(Lower(s));
    LowerOfKept(c);
    StripDisallowedOfKept(c);
  }
}
