/** What the referee's result means: a partition, a sum over a set, and the best submission. */
module ScoreLaws {
  import opened Text
  import opened Seqs
  import opened Dictionaries
  import opened Scoring

  // --- points of a set of words ---

  ghost function Points(words: set<string>): nat {
    if words == {} then 0
    else
      var w :| w in words;
      WordPoints(|w|) + Points(words - {w})
  }

  /** The sum does not depend on the order in which the words are taken. */
  lemma {:induction false} PointsTake(words: set<string>, w: string)
    requires w in words
    ensures Points(words) == WordPoints(|w|) + Points(words - {w})
    decreases words
  {
    var v :| v in words && Points(words) == WordPoints(|v|) + Points(words - {v});
    if v != w {
      PointsTake(words - {v}, w);
      PointsTake(words - {w}, v);
      assert words - {v} - {w} == words - {w} - {v};
    }
  }

  lemma PointsAdd(words: set<string>, w: string)
    requires w !in words
    ensures Points(words + {w}) == Points(words) + WordPoints(|w|)
  {
    PointsTake(words + {w}, w);
    assert words + {w} - {w} == words;
  }

  /** More words score more, strictly more if the words are of playable length. */
  lemma {:induction false} PointsMonotone(few: set<string>, many: set<string>)
    requires few <= many
    ensures Points(few) <= Points(many)
    ensures (forall w :: w in many ==> |w| >= MIN_WORD_LEN) && few != many ==> Points(few) < Points(many)
    decreases many
  {
    if few != many {
      var w :| w in many && w !in few;
      PointsTake(many, w);
      PointsMonotone(few, many - {w});
    }
  }

  /** Points rise with length, and by no less with each further letter. */
  lemma PointsRise(n: nat)
    requires n >= MIN_WORD_LEN
    ensures 0 < WordPoints(n) - WordPoints(n - 1) <= WordPoints(n + 1) - WordPoints(n)
    ensures WordPoints(3) == 1 && WordPoints(5) == 4 && WordPoints(8) == 14 && WordPoints(9) == 18
  {
  }

  // --- the accepted words ---

  ghost function WordsOf(accepted: seq<WordScore>): seq<string> {
    seq(|accepted|, i requires 0 <= i < |accepted| => accepted[i].word)
  }

  ghost function RejectedWordsOf(rejected: seq<Rejection>): seq<string> {
    seq(|rejected|, i requires 0 <= i < |rejected| => rejected[i].word)
  }

  ghost function Normals(words: seq<string>): seq<string> {
    seq(|words|, i requires 0 <= i < |words| => Normalize(words[i]))
  }

  /** The distinct words of a submission that score, in normal form. */
  ghost function ScoringWords(d: Dictionary, letters: string, words: seq<string>): set<string> {
    set w | w in Normals(words) && Scores(d, letters, w)
  }

  lemma ScoringWordsMore(d: Dictionary, letters: string, words: seq<string>, n: nat)
    requires n < |words|
    ensures var w := Normalize(words[n]);
            ScoringWords(d, letters, words[..n + 1]) ==
            ScoringWords(d, letters, words[..n]) + if Scores(d, letters, w) then {w} else {}
  {
    assert Normals(words[..n + 1]) == Normals(words[..n]) + [Normalize(words[n])];
  }

  lemma ScoringWordsAppend(d: Dictionary, letters: string, words: seq<string>, word: string)
    ensures ScoringWords(d, letters, words + [word]) ==
            ScoringWords(d, letters, words) + if Scores(d, letters, Normalize(word)) then {Normalize(word)} else {}
  {
    assert Normals(words + [word]) == Normals(words) + [Normalize(word)];
  }

  lemma AcceptedIff(d: Dictionary, letters: string, words: seq<string>, n: nat)
    requires n < |words|
    ensures var w := Normalize(words[n]);
            VerdictOn(d, letters, words, n) == Accepted <==>
            Scores(d, letters, w) && w !in ScoringWords(d, letters, words[..n])
  {
    var w := Normalize(words[n]);
    if SeenBefore(words, n) {
      var j :| 0 <= j < n && Normalize(words[j]) == w;
      assert Normals(words[..n])[j] == w;
    }
    if w in Normals(words[..n]) {
      var j :| 0 <= j < n && Normals(words[..n])[j] == w;
      assert Normalize(words[j]) == w;
    }
  }

  /** The accepted list spells each word of the set once, with its points, and the total is the
      sum of the points over the set. */
  ghost predicate Sums(res: Result, words: set<string>) {
    && NoDuplicates(WordsOf(res.accepted))
    && Elements(WordsOf(res.accepted)) == words
    && (forall a :: a in res.accepted ==> a.points == WordPoints(|a.word|))
    && res.total == Points(words)
  }

  lemma SumsOneMore(was: Result, words: set<string>, w: string)
    requires Sums(was, words) && w !in words
    ensures Sums(Judged(was, w, Accepted), words + {w})
  {
    var now := Judged(was, w, Accepted);
    assert WordsOf(now.accepted) == WordsOf(was.accepted) + [w];
    assert w !in Elements(WordsOf(was.accepted));
    PointsAdd(words, w);
  }

  lemma {:induction false} AcceptedUpTo(d: Dictionary, letters: string, words: seq<string>, n: nat)
    requires n <= |words|
    ensures Sums(ScoreUpTo(d, letters, words, n), ScoringWords(d, letters, words[..n]))
    decreases n
  {
    if n == 0 {
      assert Normals(words[..0]) == [];
      assert ScoringWords(d, letters, words[..0]) == {};
    } else {
      AcceptedUpTo(d, letters, words, n - 1);
      ScoringWordsMore(d, letters, words, n - 1);
      AcceptedIff(d, letters, words, n - 1);
      var was, scored := ScoreUpTo(d, letters, words, n - 1), ScoringWords(d, letters, words[..n - 1]);
      var w, verdict := Normalize(words[n - 1]), VerdictOn(d, letters, words, n - 1);
      assert ScoreUpTo(d, letters, words, n) == Judged(was, w, verdict);
      if verdict == Accepted {
        SumsOneMore(was, scored, w);
      } else {
        assert ScoringWords(d, letters, words[..n]) == scored;
      }
    }
  }

  lemma AcceptedAre(d: Dictionary, letters: string, words: seq<string>)
    ensures var res := ScoreOf(d, letters, words);
            && NoDuplicates(WordsOf(res.accepted))
            && Elements(WordsOf(res.accepted)) == ScoringWords(d, letters, words)
            && |res.accepted| == |ScoringWords(d, letters, words)|
            && (forall a :: a in res.accepted ==> a.points == WordPoints(|a.word|))
            && res.total == Points(ScoringWords(d, letters, words))
  {
    AcceptedUpTo(d, letters, words, |words|);
    assert words[..|words|] == words;
    DistinctCount(WordsOf(ScoreOf(d, letters, words).accepted));
  }

  /** Accepted and rejected words together, as often as they occur. */
  ghost function Accounted(res: Result): multiset<string> {
    multiset(WordsOf(res.accepted)) + multiset(RejectedWordsOf(res.rejected))
  }

  lemma AccountedOneMore(was: Result, w: string, verdict: Verdict)
    ensures Accounted(Judged(was, w, verdict)) ==
            Accounted(was) + Unless(w, verdict == Skipped)
  {
    var now := Judged(was, w, verdict);
    match verdict
    case Skipped =>
    case Accepted => assert WordsOf(now.accepted) == WordsOf(was.accepted) + [w];
    case Rejected(reason) => assert RejectedWordsOf(now.rejected) == RejectedWordsOf(was.rejected) + [w];
  }

  /** The normal forms of the submission that are not empty, as often as they were submitted. */
  ghost function NonBlank(words: seq<string>): multiset<string> {
    multiset(Normals(words))[("") := 0]
  }

  ghost function Unless(w: string, blank: bool): multiset<string> {
    if blank then multiset{} else multiset{w}
  }

  lemma NonBlankMore(words: seq<string>, n: nat)
    requires 0 < n <= |words|
    ensures var w := Normalize(words[n - 1]);
            NonBlank(words[..n]) == NonBlank(words[..n - 1]) + Unless(w, w == "")
  {
    assert Normals(words[..n]) == Normals(words[..n - 1]) + [Normalize(words[n - 1])];
  }

  lemma {:induction false} PartitionUpTo(d: Dictionary, letters: string, words: seq<string>, n: nat)
    requires n <= |words|
    ensures Accounted(ScoreUpTo(d, letters, words, n)) == NonBlank(words[..n])
    decreases n
  {
    if n == 0 {
      NothingAccounted(words[..0]);
    } else {
      PartitionUpTo(d, letters, words, n - 1);
      var was, w := ScoreUpTo(d, letters, words, n - 1), Normalize(words[n - 1]);
      var verdict := VerdictOn(d, letters, words, n - 1);
      calc {
        Accounted(Judged(was, w, verdict));
        { AccountedOneMore(was, w, verdict); }
        Accounted(was) + Unless(w, verdict == Skipped);
        NonBlank(words[..n - 1]) + Unless(w, w == "");
        { NonBlankMore(words, n); }
        NonBlank(words[..n]);
      }
    }
  }

  lemma NothingAccounted(none: seq<string>)
    requires none == []
    ensures Accounted(Result(0, [], [])) == NonBlank(none)
  {
    assert Normals(none) == [];
    assert WordsOf([]) == [] && RejectedWordsOf([]) == [];
  }

  /** Every submitted word that is not blank is either accepted or rejected, as often as it was
      submitted. */
  lemma Partition(d: Dictionary, letters: string, words: seq<string>)
    ensures Accounted(ScoreOf(d, letters, words)) == NonBlank(words)
  {
    PartitionUpTo(d, letters, words, |words|);
    assert words[..|words|] == words;
  }

  /** Total and accepted words depend only on which normal forms were submitted: not on their
      order, their repetition, their case or the blanks around them. */
  lemma OnlyNormalFormsMatter(d: Dictionary, letters: string, words: seq<string>, words': seq<string>)
    requires Elements(Normals(words)) == Elements(Normals(words'))
    ensures ScoreOf(d, letters, words).total == ScoreOf(d, letters, words').total
    ensures Elements(WordsOf(ScoreOf(d, letters, words).accepted))
         == Elements(WordsOf(ScoreOf(d, letters, words').accepted))
    ensures |ScoreOf(d, letters, words).accepted| == |ScoreOf(d, letters, words').accepted|
  {
    AcceptedAre(d, letters, words);
    AcceptedAre(d, letters, words');
    assert ScoringWords(d, letters, words) == ScoringWords(d, letters, words') by {
      forall w ensures w in Normals(words) <==> w in Normals(words') {
        assert w in Elements(Normals(words)) <==> w in Elements(Normals(words'));
      }
    }
  }

  lemma PermutingKeepsScore(d: Dictionary, letters: string, words: seq<string>, words': seq<string>)
    requires multiset(words) == multiset(words')
    ensures ScoreOf(d, letters, words).total == ScoreOf(d, letters, words').total
    ensures Elements(WordsOf(ScoreOf(d, letters, words).accepted))
         == Elements(WordsOf(ScoreOf(d, letters, words').accepted))
  {
    NormalsOfPermuted(words, words');
    NormalsOfPermuted(words', words);
    OnlyNormalFormsMatter(d, letters, words, words');
  }

  lemma NormalsOfPermuted(words: seq<string>, words': seq<string>)
    requires multiset(words) == multiset(words')
    ensures Elements(Normals(words)) <= Elements(Normals(words'))
  {
    forall w | w in Normals(words) ensures w in Normals(words') {
      var i :| 0 <= i < |words| && Normals(words)[i] == w;
      assert words[i] in multiset(words');
      var j :| 0 <= j < |words'| && words'[j] == words[i];
      assert Normals(words')[j] == w;
    }
  }

  // --- the rejected words ---

  /** How often a rejection is due when the normal forms of the submission are those in m: every
      repetition of a word is a duplicate, and its first attempt is judged on its merits. */
  ghost function Due(d: Dictionary, letters: string, m: multiset<string>, x: Rejection): nat {
    if x.word == "" || x.word !in m then 0
    else if x.reason == Duplicate then m[x.word] - 1
    else if FreshVerdict(d, letters, x.word) == Rejected(x.reason) then 1
    else 0
  }

  lemma SeenIffCounted(words: seq<string>, n: nat)
    requires n < |words|
    ensures SeenBefore(words, n) <==> Normalize(words[n]) in multiset(Normals(words[..n]))
  {
    var earlier := Normals(words[..n]);
    if SeenBefore(words, n) {
      var j :| 0 <= j < n && Normalize(words[j]) == Normalize(words[n]);
      assert earlier[j] == Normalize(words[n]);
    }
    if Normalize(words[n]) in earlier {
      var j :| 0 <= j < n && earlier[j] == Normalize(words[n]);
      assert Normalize(words[j]) == Normalize(words[n]);
    }
  }

  /** Whether a verdict on w is the rejection x. */
  ghost function Gives(verdict: Verdict, w: string, x: Rejection): nat {
    if verdict.Rejected? && x == Rejection(w, verdict.reason) then 1 else 0
  }

  ghost function DueIn(d: Dictionary, letters: string, words: seq<string>, x: Rejection): nat {
    Due(d, letters, multiset(Normals(words)), x)
  }

  lemma DueOneMore(d: Dictionary, letters: string, words: seq<string>, n: nat, x: Rejection)
    requires 0 < n <= |words|
    ensures DueIn(d, letters, words[..n], x) ==
            DueIn(d, letters, words[..n - 1], x) +
            Gives(VerdictOn(d, letters, words, n - 1), Normalize(words[n - 1]), x)
  {
    SeenIffCounted(words, n - 1);
    assert Normals(words[..n]) == Normals(words[..n - 1]) + [Normalize(words[n - 1])];
  }

  lemma RejectedOneMore(was: Result, w: string, verdict: Verdict, x: Rejection)
    ensures multiset(Judged(was, w, verdict).rejected)[x] == multiset(was.rejected)[x] + Gives(verdict, w, x)
  {
  }

  lemma {:induction false} RejectionsUpTo(d: Dictionary, letters: string, words: seq<string>, n: nat, x: Rejection)
    requires n <= |words|
    ensures multiset(ScoreUpTo(d, letters, words, n).rejected)[x] == DueIn(d, letters, words[..n], x)
    decreases n
  {
    if n == 0 {
      NothingDue(d, letters, words[..0], x);
    } else {
      RejectionsUpTo(d, letters, words, n - 1, x);
      var was, w := ScoreUpTo(d, letters, words, n - 1), Normalize(words[n - 1]);
      var verdict := VerdictOn(d, letters, words, n - 1);
      calc {
        multiset(Judged(was, w, verdict).rejected)[x];
        { RejectedOneMore(was, w, verdict, x); }
        multiset(was.rejected)[x] + Gives(verdict, w, x);
        DueIn(d, letters, words[..n - 1], x) + Gives(verdict, w, x);
        { DueOneMore(d, letters, words, n, x); }
        DueIn(d, letters, words[..n], x);
      }
    }
  }

  lemma NothingDue(d: Dictionary, letters: string, none: seq<string>, x: Rejection)
    requires none == []
    ensures DueIn(d, letters, none, x) == 0
  {
    assert Normals(none) == [];
  }

  /** The rejections are exactly those that are due; so as a collection they depend only on how
      often each normal form was submitted. */
  lemma RejectionsAreDue(d: Dictionary, letters: string, words: seq<string>, x: Rejection)
    ensures multiset(ScoreOf(d, letters, words).rejected)[x] == Due(d, letters, multiset(Normals(words)), x)
  {
    RejectionsUpTo(d, letters, words, |words|, x);
    assert words[..|words|] == words;
  }

  lemma PermutingKeepsRejections(d: Dictionary, letters: string, words: seq<string>, words': seq<string>)
    requires multiset(Normals(words)) == multiset(Normals(words'))
    ensures multiset(ScoreOf(d, letters, words).rejected) == multiset(ScoreOf(d, letters, words').rejected)
  {
    var one, two := ScoreOf(d, letters, words).rejected, ScoreOf(d, letters, words').rejected;
    forall x ensures multiset(one)[x] == multiset(two)[x] {
      RejectionsAreDue(d, letters, words, x);
      RejectionsAreDue(d, letters, words', x);
    }
  }

  /** Their order does move with the order of submission. */
  lemma RejectionsMove(d: Dictionary, letters: string)
    ensures ScoreOf(d, letters, ["AB", "CD"]).rejected != ScoreOf(d, letters, ["CD", "AB"]).rejected
  {
    LettersAreNormal("AB");
    LettersAreNormal("CD");
    var one, two := ["AB", "CD"], ["CD", "AB"];
    assert VerdictOn(d, letters, one, 0) == Rejected(TooShort);
    assert ScoreUpTo(d, letters, one, 1).rejected == [Rejection("AB", TooShort)];
    assert VerdictOn(d, letters, two, 0) == Rejected(TooShort);
    assert ScoreUpTo(d, letters, two, 1).rejected == [Rejection("CD", TooShort)];
    assert ScoreOf(d, letters, one).rejected[0] == Rejection("AB", TooShort);
    assert ScoreOf(d, letters, two).rejected[0] == Rejection("CD", TooShort);
  }

  /** A word submitted on its own is accepted exactly when its normal form scores. */
  lemma ScoreOne(d: Dictionary, letters: string, word: string)
    ensures var w := Normalize(word);
            ScoreOf(d, letters, [word]).accepted ==
            if Scores(d, letters, w) then [WordScore(w, WordPoints(|w|))] else []
  {
    var empty := ScoreUpTo(d, letters, [word], 0);
    assert ScoreOf(d, letters, [word]) == Judged(empty, Normalize(word), VerdictOn(d, letters, [word], 0));
  }

  // --- the best submission ---

  lemma ScoringIsBuildable(d: Dictionary, letters: string, w: string)
    requires Scores(d, letters, w)
    ensures w in Buildable(d, letters)
  {
    LettersAreNormal(w);
  }

  lemma BuildableScores(d: Dictionary, letters: string, w: string)
    requires d.Valid() && w in Buildable(d, letters)
    ensures Scores(d, letters, w) && Normalize(w) == w
  {
    LettersAreNormal(w);
  }

  /** A list of distinct buildable words is accepted word for word. */
  lemma CleanSubmission(d: Dictionary, letters: string, words: seq<string>)
    requires d.Valid() && NoDuplicates(words) && Elements(words) <= Buildable(d, letters)
    ensures var res := ScoreOf(d, letters, words);
            && res.rejected == [] && |res.accepted| == |words|
            && Elements(WordsOf(res.accepted)) == Elements(words)
            && res.total == Points(Elements(words))
  {
    var res := ScoreOf(d, letters, words);
    forall i | 0 <= i < |words| ensures Scores(d, letters, words[i]) && Normalize(words[i]) == words[i] {
      assert words[i] in Elements(words);
      BuildableScores(d, letters, words[i]);
    }
    assert Normals(words) == words;
    assert ScoringWords(d, letters, words) == Elements(words);
    AcceptedAre(d, letters, words);
    DistinctCount(words);
    Partition(d, letters, words);
    assert "" !in words;
    assert |multiset(words)| == |words|;
    assert |Accounted(res)| == |res.accepted| + |res.rejected|;
  }

  /** No submission scores more than the words that the dictionary finds for the letters, and one
      that scores as much contains all of them. */
  lemma FoundWordsAreOptimal(d: Dictionary, letters: string, found: seq<string>, words: seq<string>)
    requires d.Valid() && NoDuplicates(found) && Elements(found) == Buildable(d, letters)
    ensures ScoreOf(d, letters, found).rejected == []
    ensures ScoreOf(d, letters, words).total <= ScoreOf(d, letters, found).total
    ensures ScoreOf(d, letters, words).total == ScoreOf(d, letters, found).total
       <==> Elements(found) <= Elements(Normals(words))
  {
    CleanSubmission(d, letters, found);
    AcceptedAre(d, letters, words);
    var scored := ScoringWords(d, letters, words);
    forall w | w in scored ensures w in Buildable(d, letters) {
      ScoringIsBuildable(d, letters, w);
    }
    PointsMonotone(scored, Buildable(d, letters));
    forall w | w in Buildable(d, letters) ensures Scores(d, letters, w) {
      BuildableScores(d, letters, w);
    }
    if Elements(found) <= Elements(Normals(words)) {
      assert scored == Buildable(d, letters);
    }
  }
}
