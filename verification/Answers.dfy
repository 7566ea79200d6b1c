/** The board's answers against the dictionary's and the referee's: what the solver finds on a
    board is a clean submission over the same letters. */
module Answers {
  import opened Text
  import opened Seqs
  import opened Tries
  import opened Boards
  import opened Solver
  import opened LetterCounts
  import opened Dictionaries
  import opened Scoring
  import opened ScoreLaws

  /** The cells of a path below n that carry the letter c. */
  ghost function CellsWith(letters: string, path: seq<int>, n: nat, c: char): set<int>
    requires n <= |letters|
  {
    set x | x in path && 0 <= x < n && letters[x] == c
  }

  lemma {:induction false} CellsWithin(letters: string, path: seq<int>, n: nat, c: char)
    requires n <= |letters|
    ensures |CellsWith(letters, path, n, c)| <= multiset(letters[..n])[c]
    decreases n
  {
    if n == 0 {
      assert CellsWith(letters, path, 0, c) == {};
    } else {
      CellsWithin(letters, path, n - 1, c);
      OneMore(letters, n - 1);
      var fewer := CellsWith(letters, path, n - 1, c);
      if n - 1 in path && letters[n - 1] == c {
        assert CellsWith(letters, path, n, c) == fewer + {n - 1};
      } else {
        assert CellsWith(letters, path, n, c) == fewer;
      }
    }
  }

  lemma {:induction false} SpelledCount(letters: string, path: seq<int>, c: char)
    requires forall i :: 0 <= i < |path| ==> 0 <= path[i] < |letters|
    requires NoDuplicates(path)
    ensures multiset(Spell(letters, path))[c] == |CellsWith(letters, path, |letters|, c)|
    decreases |path|
  {
    if path == [] {
      assert CellsWith(letters, path, |letters|, c) == {};
    } else {
      var init, last := path[..|path| - 1], path[|path| - 1];
      SpelledCount(letters, init, c);
      assert path == init + [last];
      SpellExtended(letters, init, last);
      CellsWithExtended(letters, init, last, c);
    }
  }

  lemma CellsWithExtended(letters: string, path: seq<int>, cell: int, c: char)
    requires 0 <= cell < |letters| && cell !in path
    ensures |CellsWith(letters, path + [cell], |letters|, c)|
         == |CellsWith(letters, path, |letters|, c)| + if letters[cell] == c then 1 else 0
  {
    var before, after := CellsWith(letters, path, |letters|, c), CellsWith(letters, path + [cell], |letters|, c);
    assert after == if letters[cell] == c then before + {cell} else before;
  }

  /** A path of distinct cells takes each letter at most as often as the board has it. */
  lemma SpelledWithin(letters: string, path: seq<int>)
    requires forall i :: 0 <= i < |path| ==> 0 <= path[i] < |letters|
    requires NoDuplicates(path)
    ensures multiset(Spell(letters, path)) <= multiset(letters)
  {
    assert letters[..|letters|] == letters;
    forall c ensures multiset(Spell(letters, path))[c] <= multiset(letters)[c] {
      SpelledCount(letters, path, c);
      CellsWithin(letters, path, |letters|, c);
    }
  }

  lemma LettersWithinUpper(word: string, letters: string)
    requires AllLetters(word) && multiset(word) <= multiset(letters)
    ensures Fits(word, letters)
  {
    forall c | c in multiset(word) ensures multiset(word)[c] <= multiset(Upper(letters))[c] {
      assert c in word;
      UpperCounts(letters, c);
    }
  }

  /** The trie that the server builds at startup: from the dictionary's words, in some order. */
  ghost predicate BuiltFromDictionary(nodes: seq<Node>, d: Dictionary) {
    exists words :: BuiltFrom(nodes, words) && Elements(words) == d.words
  }

  /** The trie recognises exactly the dictionary's words, so on every board that fits the mask the
      solver's answers are exactly the dictionary words spelled by a path of distinct, adjacent
      cells. */
  lemma AnswersAreDictionaryWords(nodes: seq<Node>, d: Dictionary, letters: string, w: nat, h: nat, s: string)
    requires d.Valid() && BuiltFromDictionary(nodes, d)
    requires w * h <= |letters| && w * h <= 64
    ensures Answer(nodes, letters, w, h, s) <==>
            s in d.words && exists path :: SimplePath(w, h, path) && Spell(letters, path) == s
  {
    var words :| BuiltFrom(nodes, words) && Elements(words) == d.words;
    assert s in words <==> s in d.words by {
      assert s in words <==> s in Elements(words);
    }
    AnswersArePlayable(nodes, letters, w, h, s);
  }

  lemma PlayableIsBuildable(nodes: seq<Node>, d: Dictionary, letters: string, w: nat, h: nat, s: string)
    requires BuiltFromDictionary(nodes, d) && w * h <= |letters|
    requires Playable(nodes, letters, w, h, s)
    ensures s in Buildable(d, letters)
  {
    var words :| BuiltFrom(nodes, words) && Elements(words) == d.words;
    assert s in words && s in Elements(words);
    var path :| SimplePath(w, h, path) && Spell(letters, path) == s;
    SpelledWithin(letters, path);
    LettersWithinUpper(s, letters);
  }

  /** On every board that fits the mask, the solver's answers are among the words that the
      dictionary finds in the board's letters, and the referee accepts all of them over those
      letters and rejects none. */
  lemma BoardAnswersScore(nodes: seq<Node>, d: Dictionary, letters: string, w: nat, h: nat, answers: seq<string>)
    requires d.Valid() && BuiltFromDictionary(nodes, d)
    requires w * h <= |letters| && w * h <= 64
    requires NoDuplicates(answers) && forall s :: s in answers <==> Answer(nodes, letters, w, h, s)
    ensures Elements(answers) <= Buildable(d, letters)
    ensures var res := ScoreOf(d, letters, answers);
            res.rejected == [] && |res.accepted| == |answers| && res.total == Points(Elements(answers))
  {
    forall s | s in Elements(answers) ensures s in Buildable(d, letters) {
      assert Answer(nodes, letters, w, h, s);
      AnswersArePlayable(nodes, letters, w, h, s);
      PlayableIsBuildable(nodes, d, letters, w, h, s);
    }
    CleanSubmission(d, letters, answers);
  }

  /** Past the mask this fails: some board has an answer that its letters cannot build, whatever
      the size. */
  lemma BoardAnswersNeedTheMask(w: nat, h: nat) returns (nodes: seq<Node>, d: Dictionary, letters: string)
    requires w * h > 64
    ensures d.Valid() && BuiltFromDictionary(nodes, d) && |letters| == w * h
    ensures Answer(nodes, letters, w, h, "ABA") && "ABA" !in Buildable(d, letters)
  {
    nodes, letters := CellUsedTwice(w, h);
    d := Dictionary({"ABA"});
    assert Elements(["ABA"]) == d.words;
    LettersAreNormal(letters);
    OneOfItsKind(letters, 64);
    assert multiset("ABA")['A'] == 2;
  }

  lemma OneOfItsKind(s: string, k: nat)
    requires k < |s| && forall i :: 0 <= i < |s| ==> (s[i] == s[k] <==> i == k)
    ensures multiset(s)[s[k]] == 1
  {
    var front, back := s[..k], s[k + 1..];
    assert s == front + [s[k]] + back;
    assert s[k] !in front && s[k] !in back;
  }
}
