/** Generating boards: the best of a bounded number of draws. */
module Generator {
  import opened Seqs
  import opened Tries
  import opened Solver
  import opened Drawing

  const MAX_TRIES := 300

  /** A generated board and its answers; all empty if no draw had any. */
  datatype Board = Board(letters: string, width: nat, height: nat, words: seq<string>)

  /** The fewest words that a board of this many cells should have. */
  function MinWords(size: nat): nat {
    if size <= 16 then 8 else if size <= 25 then 16 else 24
  }

  /** The floor of the three sizes that are dealt, and the number of tries. */
  lemma Floors()
    ensures MinWords(4 * 4) == 8 && MinWords(5 * 5) == 16 && MinWords(6 * 6) == 24 && MAX_TRIES == 300
  {
  }

  /** A list of exactly the board's answers, each once. */
  ghost predicate Solves(nodes: seq<Node>, w: nat, h: nat, letters: string, words: seq<string>) {
    && w * h <= |letters| && NoDuplicates(words)
    && forall s :: s in words <==> Answer(nodes, letters, w, h, s)
  }

  /** How many answers a board has does not depend on the order in which they are listed. */
  lemma SolvesCount(nodes: seq<Node>, w: nat, h: nat, letters: string, words: seq<string>, words': seq<string>)
    requires Solves(nodes, w, h, letters, words) && Solves(nodes, w, h, letters, words')
    ensures |words| == |words'|
  {
    DistinctCount(words);
    DistinctCount(words');
    assert Elements(words) == Elements(words') by {
      forall s ensures s in words <==> s in words' {
        assert s in words <==> Answer(nodes, letters, w, h, s);
      }
    }
  }

  /** No board drawn has more answers than the best, which is the first of them with as many, with its
      answers; or it is the empty result, and none of them has any. */
  ghost predicate BestOf(best: Board, w: nat, h: nat, drawn: seq<(string, seq<string>)>) {
    && (forall b :: b in drawn ==> |b.1| <= |best.words|)
    && (best == Board("", 0, 0, []) || (best.width == w && best.height == h && FirstDrawn(best, drawn)))
  }

  /** The board was drawn, before any other with as many answers. */
  ghost predicate FirstDrawn(best: Board, drawn: seq<(string, seq<string>)>) {
    exists i :: && 0 <= i < |drawn| && drawn[i] == (best.letters, best.words)
                && forall j :: 0 <= j < i ==> |drawn[j].1| < |best.words|
  }

  lemma BestOfMore(best: Board, w: nat, h: nat, drawn: seq<(string, seq<string>)>, letters: string, words: seq<string>)
    requires BestOf(best, w, h, drawn)
    ensures BestOf(if |words| > |best.words| then Board(letters, w, h, words) else best,
                   w, h, drawn + [(letters, words)])
  {
    var more := drawn + [(letters, words)];
    if |words| > |best.words| {
      assert more[|drawn|] == (letters, words);
      assert FirstDrawn(Board(letters, w, h, words), more);
    } else if best != Board("", 0, 0, []) {
      var i :| 0 <= i < |drawn| && drawn[i] == (best.letters, best.words)
               && forall j :: 0 <= j < i ==> |drawn[j].1| < |best.words|;
      assert more[i] == (best.letters, best.words);
      assert FirstDrawn(best, more);
    }
  }

  /** A board and its answers. */
  method DrawBoard(t: Trie, w: nat, h: nat, rng: Rng) returns (letters: string, words: seq<string>)
    requires t.Valid()
    modifies rng
    ensures WellDrawn(w * h, letters) && Solves(t.nodes, w, h, letters, words)
  {
    letters := DrawGrid(w * h, rng);
    words := Solve(t, letters, w, h);
  }

  /** Draws boards until one has enough words, at most MAX_TRIES of them, and returns the best.
      `drawn` lists the boards drawn with their answers. */
  method Generate(t: Trie, w: nat, h: nat, rng: Rng)
    returns (best: Board, ghost drawn: seq<(string, seq<string>)>)
    requires t.Valid()
    modifies rng
    ensures 1 <= |drawn| <= MAX_TRIES
    ensures forall b :: b in drawn ==> WellDrawn(w * h, b.0) && Solves(t.nodes, w, h, b.0, b.1)
    ensures best.words != [] ==>
              WellDrawn(w * h, best.letters) && Solves(t.nodes, w, h, best.letters, best.words)
    ensures BestOf(best, w, h, drawn)
    ensures |best.words| >= MinWords(w * h) || |drawn| == MAX_TRIES
    ensures forall b :: b in drawn[..|drawn| - 1] ==> |b.1| < MinWords(w * h)
    ensures var last := drawn[|drawn| - 1];
            |last.1| >= MinWords(w * h) ==> best == Board(last.0, w, h, last.1)
  {
    var size := w * h;
    var floor := MinWords(size);
    best, drawn := Board("", 0, 0, []), [];
    for i := 0 to MAX_TRIES
      invariant |drawn| == i && |best.words| < floor
      invariant forall b :: b in drawn ==> WellDrawn(size, b.0) && Solves(t.nodes, w, h, b.0, b.1)
      invariant BestOf(best, w, h, drawn)
    {
      var letters, words := DrawBoard(t, w, h, rng);
      BestOfMore(best, w, h, drawn, letters, words);
      drawn := drawn + [(letters, words)];
      if |words| > |best.words| {
        best := Board(letters, w, h, words);
      }
      if |words| >= floor {
        best := Board(letters, w, h, words);
        return;
      }
    }
  }
}
