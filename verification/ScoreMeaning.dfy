/** What the referee and the dictionary do, in plain terms: raw strings, letters in either case, and
    counts. */
module ScoreMeaning {
  import opened Text
  import opened Seqs
  import opened LetterCounts
  import opened Dictionaries
  import opened Scoring
  import opened ScoreLaws

  /** u uses no letter more often than the letters have it, counting both of its cases. */
  ghost predicate Within(u: string, letters: string) {
    forall c :: 'A' <= c <= 'Z' ==> multiset(u)[c] <= multiset(letters)[c] + multiset(letters)[(c as int + 32) as char]
  }

  lemma FitsMeans(u: string, letters: string)
    ensures Fits(u, letters) <==> AllLetters(u) && Within(u, letters)
  {
    forall c: char | 'A' <= c <= 'Z'
      ensures multiset(Upper(letters))[c] == multiset(letters)[c] + multiset(letters)[(c as int + 32) as char]
    {
      UpperCounts(letters, c);
    }
    if AllLetters(u) && Within(u, letters) {
      forall c | c in multiset(u) ensures multiset(u)[c] <= multiset(Upper(letters))[c] {
        assert c in u && IsLetter(c);
        UpperCounts(letters, c);
      }
    }
  }

  /** A word in A-Z is known in any case exactly when it is one of the words. */
  lemma ContainsMeans(d: Dictionary, v: string, u: string)
    requires AllLetters(u) && InAnyCase(v, u)
    ensures d.Contains(v) <==> u in d.words
  {
    assert Upper(v) == u;
  }

  /** The words found for a rack are the dictionary words that its letters cover. */
  lemma FoundMeans(d: Dictionary, rack: string, u: string)
    ensures u in Buildable(d, rack) <==> u in d.words && AllLetters(u) && Within(u, rack)
  {
    FitsMeans(u, rack);
  }

  /** Some raw string of the submission writes u. */
  ghost predicate Attempted(words: seq<string>, u: string) {
    exists raw :: raw in words && Writes(raw, u)
  }

  lemma AttemptedAreNormals(words: seq<string>, u: string)
    ensures Attempted(words, u) <==> u in Normals(words)
  {
    if Attempted(words, u) {
      var raw :| raw in words && Writes(raw, u);
      var i :| 0 <= i < |words| && words[i] == raw;
      WritesItsNormalForm(raw, u);
      assert Normals(words)[i] == u;
    }
    if u in Normals(words) {
      var i :| 0 <= i < |words| && Normals(words)[i] == u;
      WritesItsNormalForm(words[i], u);
      assert words[i] in words;
    }
  }

  /** u earns points: three letters or more of A-Z, covered by the letters, and in the dictionary. */
  ghost predicate Earns(d: Dictionary, letters: string, u: string) {
    |u| >= 3 && AllLetters(u) && Within(u, letters) && u in d.words
  }

  lemma ScoresMeans(d: Dictionary, letters: string, u: string)
    ensures Scores(d, letters, u) <==> Earns(d, letters, u)
  {
    FitsMeans(u, letters);
    if AllLetters(u) {
      LettersAreNormal(u);
    }
  }

  /** The accepted words are exactly the attempted words that earn points, each once, and the total is
      their points. */
  lemma AcceptedMeans(d: Dictionary, letters: string, words: seq<string>, u: string)
    ensures var accepted := WordsOf(ScoreOf(d, letters, words).accepted);
            && (u in accepted <==> Attempted(words, u) && Earns(d, letters, u))
            && NoDuplicates(accepted)
            && ScoreOf(d, letters, words).total == Points(Elements(accepted))
  {
    AcceptedAre(d, letters, words);
    AttemptedAreNormals(words, u);
    ScoresMeans(d, letters, u);
    var accepted := WordsOf(ScoreOf(d, letters, words).accepted);
    assert u in accepted <==> u in Elements(accepted);
  }

  /** The places of the submission whose raw string writes u. */
  ghost function Attempts(words: seq<string>, u: string): set<int> {
    set i | 0 <= i < |words| && Writes(words[i], u)
  }

  lemma {:induction false} AttemptsAreCounted(words: seq<string>, u: string)
    ensures |Attempts(words, u)| == multiset(Normals(words))[u]
    decreases |words|
  {
    if words == [] {
      assert Attempts(words, u) == {};
    } else {
      var init, last := words[..|words| - 1], words[|words| - 1];
      AttemptsAreCounted(init, u);
      WritesItsNormalForm(last, u);
      assert words == init + [last];
      assert Normals(words) == Normals(init) + [Normalize(last)];
      if Writes(last, u) {
        assert Attempts(words, u) == Attempts(init, u) + {|words| - 1};
      } else {
        assert Attempts(words, u) == Attempts(init, u);
      }
    }
  }

  /** Why a word is rejected: each reason by its own conditions. Every attempt after the first is a
      duplicate. */
  lemma RejectionsMean(d: Dictionary, letters: string, words: seq<string>, u: string)
    requires u != ""
    ensures var rejected, n := multiset(ScoreOf(d, letters, words).rejected), |Attempts(words, u)|;
            && rejected[Rejection(u, TooShort)] == (if n > 0 && |u| < 3 then 1 else 0)
            && rejected[Rejection(u, NotInRack)] ==
               (if n > 0 && |u| >= 3 && !(AllLetters(u) && Within(u, letters)) then 1 else 0)
            && rejected[Rejection(u, NotAWord)] ==
               (if n > 0 && |u| >= 3 && AllLetters(u) && Within(u, letters) && u !in d.words then 1 else 0)
            && rejected[Rejection(u, Duplicate)] == (if n > 0 then n - 1 else 0)
  {
    RejectionsAreDue(d, letters, words, Rejection(u, TooShort));
    RejectionsAreDue(d, letters, words, Rejection(u, NotInRack));
    RejectionsAreDue(d, letters, words, Rejection(u, NotAWord));
    RejectionsAreDue(d, letters, words, Rejection(u, Duplicate));
    AttemptsAreCounted(words, u);
    FitsMeans(u, letters);
    if AllLetters(u) {
      LettersAreNormal(u);
    }
  }

  /** Submissions that write the same words, in whatever order, number, case and padding, get the same
      total and the same accepted words. */
  lemma OnlyWordsWrittenMatter(d: Dictionary, letters: string, words: seq<string>, words': seq<string>)
    requires forall u :: Attempted(words, u) <==> Attempted(words', u)
    ensures var one, two := ScoreOf(d, letters, words), ScoreOf(d, letters, words');
            one.total == two.total && Elements(WordsOf(one.accepted)) == Elements(WordsOf(two.accepted))
  {
    forall u ensures u in Elements(Normals(words)) <==> u in Elements(Normals(words')) {
      AttemptedAreNormals(words, u);
      AttemptedAreNormals(words', u);
    }
    OnlyNormalFormsMatter(d, letters, words, words');
  }

  /** Re-casing and padding the words one by one changes nothing in the result at all. */
  lemma CaseAndPaddingDoNotMatter(d: Dictionary, letters: string, words: seq<string>, words': seq<string>)
    requires |words| == |words'|
    requires forall i :: 0 <= i < |words| ==> exists u :: Writes(words[i], u) && Writes(words'[i], u)
    ensures ScoreOf(d, letters, words) == ScoreOf(d, letters, words')
  {
    forall i | 0 <= i < |words| ensures Normalize(words[i]) == Normalize(words'[i]) {
      var u :| Writes(words[i], u) && Writes(words'[i], u);
      WritesItsNormalForm(words[i], u);
      WritesItsNormalForm(words'[i], u);
    }
    SameNormalsSameScore(d, letters, words, words', |words|);
  }

  lemma {:induction false} SameNormalsSameScore(d: Dictionary, letters: string,
                                               words: seq<string>, words': seq<string>, n: nat)
    requires |words| == |words'| && n <= |words|
    requires forall i :: 0 <= i < |words| ==> Normalize(words[i]) == Normalize(words'[i])
    ensures ScoreUpTo(d, letters, words, n) == ScoreUpTo(d, letters, words', n)
    decreases n
  {
    if n > 0 {
      SameNormalsSameScore(d, letters, words, words', n - 1);
      assert SeenBefore(words, n - 1) <==> SeenBefore(words', n - 1);
    }
  }

  /** The points of every length. */
  lemma PointsTable(n: nat)
    ensures WordPoints(n) == if n < 3 then 0 else if n <= 7 then [1, 2, 4, 6, 10][n - 3] else 4 * n - 18
  {
  }
}
