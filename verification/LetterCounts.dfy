/** Letter tallies, and the early-exit check that a word fits within one. The dictionary and the
    scorer each carry their own copy of these two loops; they are modelled once. */
module LetterCounts {
  import opened Text

  function Letter(k: int): char
    requires 0 <= k < 26
  {
    (k + 'A' as int) as char
  }

  /** A word is made of letters only, each used at most as often as the upper-cased rack has it. */
  ghost predicate Fits(word: string, letters: string) {
    AllLetters(word) && multiset(word) <= multiset(Upper(letters))
  }

  /** The array holds how often each letter occurs in s. */
  ghost predicate Tallies(counts: seq<int>, s: string) {
    |counts| == 26 && forall k :: 0 <= k < 26 ==> counts[k] == multiset(s)[Letter(k)]
  }

  lemma OneMore(s: string, i: nat)
    requires i < |s|
    ensures multiset(s[..i + 1]) == multiset(s[..i]) + multiset{s[i]}
  {
    assert s[..i + 1] == s[..i] + [s[i]];
  }

  lemma PrefixTally(s: string, i: nat)
    requires i <= |s|
    ensures multiset(s[..i]) <= multiset(s)
  {
    assert s == s[..i] + s[i..];
  }

  /** Counts the letters of s, case-insensitively; anything else is ignored. */
  method CountLetters(s: string) returns (counts: array<int>)
    ensures fresh(counts) && Tallies(counts[..], Upper(s))
  {
    counts := new int[26](_ => 0);
    var upper := Upper(s);
    for i := 0 to |upper|
      invariant Tallies(counts[..], upper[..i])
    {
      OneMore(upper, i);
      var r := upper[i];
      if 'A' <= r <= 'Z' {
        counts[LetterIndex(r)] := counts[LetterIndex(r)] + 1;
      }
    }
    assert upper[..|upper|] == upper;
  }

  /** Whether the word fits within the tally, giving up at the first character that does not. */
  method CanBuild(word: string, have: array<int>, ghost letters: string) returns (ok: bool)
    requires Tallies(have[..], Upper(letters))
    ensures ok <==> Fits(word, letters)
  {
    var need := new int[26](_ => 0);
    for i := 0 to |word|
      invariant AllLetters(word[..i]) && Tallies(need[..], word[..i])
      invariant forall k :: 0 <= k < 26 ==> need[k] <= have[k]
      invariant have[..] == old(have[..])
    {
      OneMore(word, i);
      PrefixTally(word, i + 1);
      var r := word[i];
      if r < 'A' || r > 'Z' {
        return false;
      }
      need[LetterIndex(r)] := need[LetterIndex(r)] + 1;
      if need[LetterIndex(r)] > have[LetterIndex(r)] {
        assert multiset(word[..i + 1])[r] > multiset(Upper(letters))[r];
        return false;
      }
    }
    assert word[..|word|] == word;
    forall c | c in multiset(word) ensures multiset(word)[c] <= multiset(Upper(letters))[c] {
      assert c in word && c == Letter(LetterIndex(c));
    }
    return true;
  }
}
