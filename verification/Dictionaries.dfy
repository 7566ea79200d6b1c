/** The word list: membership and the words that a rack of letters can build. */
module Dictionaries {
  import opened Text
  import opened Seqs
  import opened LetterCounts

  /** The loaded words, upper-case. */
  datatype Dictionary = Dictionary(words: set<string>) {

    /** What loading guarantees: A-Z words of playable length. */
    ghost predicate Valid() {
      forall w :: w in words ==> AllLetters(w) && |w| >= MIN_WORD_LEN
    }

    predicate Contains(word: string) {
      Upper(word) in words
    }
  }

  /** A raw entry is loaded under its normal form if that is alphabetic and long enough. */
  predicate Loadable(raw: string) {
    |Normalize(raw)| >= MIN_WORD_LEN && AllLetters(Normalize(raw))
  }

  /** w is one of the loaded words: at least three letters of A-Z, written by some raw entry, in any
      case and with blanks around it. */
  ghost predicate Loads(raws: seq<string>, w: string) {
    |w| >= 3 && AllLetters(w) && exists raw :: raw in raws && Writes(raw, w)
  }

  method NewFromWords(raws: seq<string>) returns (d: Dictionary)
    ensures d.Valid()
    ensures forall w :: w in d.words <==> Loads(raws, w)
  {
    var words: set<string> := {};
    for i := 0 to |raws|
      invariant forall w :: w in words <==> Loads(raws[..i], w)
    {
      assert raws[..i + 1] == raws[..i] + [raws[i]];
      forall w ensures Loads(raws[..i + 1], w) <==>
                       Loads(raws[..i], w) || (Loadable(raws[i]) && w == Normalize(raws[i])) {
        LoadsMore(raws[..i], raws[i], w);
      }
      var w := Normalize(raws[i]);
      if |w| >= MIN_WORD_LEN && AllLetters(w) {
        words := words + {w};
      }
    }
    assert raws[..|raws|] == raws;
    d := Dictionary(words);
  }

  lemma LoadsMore(raws: seq<string>, raw: string, w: string)
    ensures Loads(raws + [raw], w) <==> Loads(raws, w) || (Loadable(raw) && w == Normalize(raw))
  {
    WritesItsNormalForm(raw, w);
    if Loads(raws, w) {
      var r :| r in raws && Writes(r, w);
      assert r in raws + [raw];
    }
    if Loadable(raw) && w == Normalize(raw) {
      assert raw in raws + [raw];
    }
  }

  /** Every loaded word, in no particular order: what the board solver's trie is built from. */
  method AllWords(d: Dictionary) returns (out: seq<string>)
    ensures NoDuplicates(out) && Elements(out) == d.words
  {
    out := Listed(d.words);
  }

  /** The dictionary words that the rack's letters can build. */
  ghost function Buildable(d: Dictionary, rack: string): set<string> {
    set w | w in d.words && Fits(w, rack)
  }

  method FindWords(d: Dictionary, rack: string) returns (out: seq<string>)
    ensures NoDuplicates(out) && Elements(out) == Buildable(d, rack)
    ensures |out| == |Buildable(d, rack)|
  {
    var have := CountLetters(rack);
    out := [];
    var rest := d.words;
    while rest != {}
      invariant rest <= d.words && NoDuplicates(out)
      invariant forall w :: w in out <==> w in d.words && w !in rest && Fits(w, rack)
      invariant Tallies(have[..], Upper(rack))
      decreases rest
    {
      var w :| w in rest;
      rest := rest - {w};
      var ok := CanBuild(w, have, rack);
      if ok {
        out := out + [w];
      }
    }
    assert Elements(out) == Buildable(d, rack);
    DistinctCount(out);
  }
}
