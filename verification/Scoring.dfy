/** The referee: judging a list of submitted words against a rack and the dictionary. */
module Scoring {
  import opened Text
  import opened LetterCounts
  import opened Dictionaries

  datatype Reason = TooShort | NotInRack | NotAWord | Duplicate

  datatype WordScore = WordScore(word: string, points: nat)

  datatype Rejection = Rejection(word: string, reason: Reason)

  datatype Result = Result(total: nat, accepted: seq<WordScore>, rejected: seq<Rejection>)

  /** Points by word length, on a rising curve. */
  function WordPoints(n: nat): nat {
    if n < 3 then 0
    else if n == 3 then 1
    else if n == 4 then 2
    else if n == 5 then 4
    else if n == 6 then 6
    else if n == 7 then 10
    else 10 + (n - 7) * 4
  }

  // --- what a submission deserves ---

  /** A word that scores: long enough, within the letters, and in the dictionary. */
  ghost predicate Scores(d: Dictionary, letters: string, w: string) {
    |w| >= MIN_WORD_LEN && Fits(w, letters) && d.Contains(w)
  }

  datatype Verdict = Skipped | Accepted | Rejected(reason: Reason)

  ghost predicate SeenBefore(words: seq<string>, i: nat)
    requires i < |words|
  {
    exists j :: 0 <= j < i && Normalize(words[j]) == Normalize(words[i])
  }

  /** The verdict on a word that was not attempted before: the first check it fails. */
  ghost function FreshVerdict(d: Dictionary, letters: string, w: string): Verdict {
    if |w| < MIN_WORD_LEN then Rejected(TooShort)
    else if !Fits(w, letters) then Rejected(NotInRack)
    else if !d.Contains(w) then Rejected(NotAWord)
    else Accepted
  }

  /** The verdict on the i-th submitted word. */
  ghost function VerdictOn(d: Dictionary, letters: string, words: seq<string>, i: nat): Verdict
    requires i < |words|
  {
    var w := Normalize(words[i]);
    if w == "" then Skipped
    else if SeenBefore(words, i) then Rejected(Duplicate)
    else FreshVerdict(d, letters, w)
  }

  /** The result once one more word has been given its verdict. */
  function Judged(res: Result, w: string, verdict: Verdict): Result {
    match verdict
    case Skipped => res
    case Rejected(reason) => res.(rejected := res.rejected + [Rejection(w, reason)])
    case Accepted =>
      var p := WordPoints(|w|);
      res.(accepted := res.accepted + [WordScore(w, p)], total := res.total + p)
  }

  /** The result for the first n words. */
  ghost function ScoreUpTo(d: Dictionary, letters: string, words: seq<string>, n: nat): Result
    requires n <= |words|
  {
    if n == 0 then Result(0, [], [])
    else Judged(ScoreUpTo(d, letters, words, n - 1), Normalize(words[n - 1]), VerdictOn(d, letters, words, n - 1))
  }

  ghost function ScoreOf(d: Dictionary, letters: string, words: seq<string>): Result {
    ScoreUpTo(d, letters, words, |words|)
  }

  // --- the referee's loop ---

  /** Every non-empty word attempted so far, whatever became of it. */
  ghost predicate SeenAre(seen: set<string>, words: seq<string>, n: nat)
    requires n <= |words|
  {
    forall w :: w in seen <==> w != "" && exists j :: 0 <= j < n && Normalize(words[j]) == w
  }

  lemma SeenMore(seen: set<string>, words: seq<string>, n: nat)
    requires n < |words| && SeenAre(seen, words, n)
    ensures var w := Normalize(words[n]);
            && SeenAre(if w == "" then seen else seen + {w}, words, n + 1)
            && (w in seen <==> w != "" && SeenBefore(words, n))
  {
    var w := Normalize(words[n]);
    var after := if w == "" then seen else seen + {w};
    forall v ensures v in after <==> v != "" && exists j :: 0 <= j < n + 1 && Normalize(words[j]) == v {
      if v == w && w != "" {
        assert Normalize(words[n]) == v;
      }
    }
  }

  /** The checks on a word not attempted before, in the order in which they are made. */
  method Judge(d: Dictionary, have: array<int>, w: string, ghost rackLetters: string) returns (verdict: Verdict)
    requires Tallies(have[..], Upper(rackLetters))
    ensures verdict == FreshVerdict(d, rackLetters, w)
  {
    if |w| < MIN_WORD_LEN {
      return Rejected(TooShort);
    }
    var fits := CanBuild(w, have, rackLetters);
    if !fits {
      return Rejected(NotInRack);
    }
    if !d.Contains(w) {
      return Rejected(NotAWord);
    }
    return Accepted;
  }

  method Score(d: Dictionary, rackLetters: string, words: seq<string>) returns (res: Result)
    ensures res == ScoreOf(d, rackLetters, words)
  {
    var have := CountLetters(rackLetters);
    var seen: set<string> := {};
    res := Result(0, [], []);
    for i := 0 to |words|
      invariant Tallies(have[..], Upper(rackLetters))
      invariant SeenAre(seen, words, i)
      invariant res == ScoreUpTo(d, rackLetters, words, i)
    {
      SeenMore(seen, words, i);
      var w := Normalize(words[i]);
      if w == "" {
        continue;
      }
      if w in seen {
        assert seen + {w} == seen;
        res := Judged(res, w, Rejected(Duplicate));
        continue;
      }
      seen := seen + {w};
      var verdict := Judge(d, have, w, rackLetters);
      res := Judged(res, w, verdict);
    }
  }
}
