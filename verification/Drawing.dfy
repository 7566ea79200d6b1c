/** Drawing boards: a balanced bag of letters, shuffled. Which boards can come out, and that no other
    can. */
module Drawing {
  import opened Text

  const CONSONANT_BAG := "BBCCDDDDFFGGGHHJKLLLLMMNNNNNNPPRRRRRRSSSSTTTTTTVWWXYZ"
  const VOWEL_BAG := "AAAAAEEEEEEEIIIIIOOOOOUUU"

  /** A third of the cells, at least three of them vowels, and at least three consonants left,
      which wins when both cannot be had. */
  function VowelCount(size: nat): int {
    var v := size / 3;
    var atLeast := if v < 3 then 3 else v;
    if atLeast > size - 3 then size - 3 else atLeast
  }

  /** From nine cells on a third are vowels; from six on there are at least three of each. */
  lemma VowelBalance(size: nat)
    ensures size >= 9 ==> VowelCount(size) == size / 3
    ensures size >= 6 ==> 3 <= VowelCount(size) && 3 <= size - VowelCount(size)
    ensures VowelCount(size) < 0 <==> size < 3
  {
  }

  predicate IsVowel(c: char) {
    c == 'A' || c == 'E' || c == 'I' || c == 'O' || c == 'U'
  }

  ghost function Vowels(s: string): nat {
    var m := multiset(s);
    m['A'] + m['E'] + m['I'] + m['O'] + m['U']
  }

  lemma VowelsAppend(s: string, c: char)
    ensures Vowels(s + [c]) == Vowels(s) + if IsVowel(c) then 1 else 0
  {
  }

  /** Any letter but Q. */
  predicate Drawable(c: char) {
    IsLetter(c) && c != 'Q'
  }

  predicate AllDrawable(s: string) {
    forall i :: 0 <= i < |s| ==> Drawable(s[i])
  }

  /** A bag of drawable letters that are all vowels, or all consonants. */
  ghost predicate BagOf(bag: string, vowels: bool) {
    bag != "" && forall i :: 0 <= i < |bag| ==> Drawable(bag[i]) && (IsVowel(bag[i]) <==> vowels)
  }

  lemma VowelBag()
    ensures BagOf(VOWEL_BAG, true)
  {
  }

  lemma FrontOfConsonantBag()
    ensures BagOf("BBCCDDDDFFGGGHHJKLLLLMMNNN", false)
  {
  }

  lemma BackOfConsonantBag()
    ensures BagOf("NNNPPRRRRRRSSSSTTTTTTVWWXYZ", false)
  {
  }

  lemma BagOfBoth(front: string, back: string, vowels: bool)
    requires BagOf(front, vowels) && BagOf(back, vowels)
    ensures BagOf(front + back, vowels)
  {
  }

  lemma ConsonantBagInTwo()
    ensures CONSONANT_BAG == "BBCCDDDDFFGGGHHJKLLLLMMNNN" + "NNNPPRRRRRRSSSSTTTTTTVWWXYZ"
  {
  }

  lemma ConsonantBag()
    ensures BagOf(CONSONANT_BAG, false)
  {
    FrontOfConsonantBag();
    BackOfConsonantBag();
    BagOfBoth("BBCCDDDDFFGGGHHJKLLLLMMNNN", "NNNPPRRRRRRSSSSTTTTTTVWWXYZ", false);
    ConsonantBagInTwo();
  }

  lemma InFront(c: char)
    requires 'B' <= c <= 'M' && !IsVowel(c)
    ensures c in "BBCCDDDDFFGGGHHJKLLLLMMNNN"
  {
    var bag := "BBCCDDDDFFGGGHHJKLLLLMMNNN";
    assert bag[0] == 'B' && bag[2] == 'C' && bag[4] == 'D' && bag[8] == 'F' && bag[10] == 'G';
    assert bag[13] == 'H' && bag[15] == 'J' && bag[16] == 'K' && bag[17] == 'L' && bag[21] == 'M';
  }

  lemma InBack(c: char)
    requires 'N' <= c <= 'Z' && !IsVowel(c) && c != 'Q'
    ensures c in "NNNPPRRRRRRSSSSTTTTTTVWWXYZ"
  {
    var bag := "NNNPPRRRRRRSSSSTTTTTTVWWXYZ";
    assert bag[0] == 'N' && bag[3] == 'P' && bag[5] == 'R' && bag[11] == 'S' && bag[15] == 'T';
    assert bag[21] == 'V' && bag[22] == 'W' && bag[24] == 'X' && bag[25] == 'Y' && bag[26] == 'Z';
  }

  lemma InConsonantBag(c: char)
    ensures c in "BBCCDDDDFFGGGHHJKLLLLMMNNN" || c in "NNNPPRRRRRRSSSSTTTTTTVWWXYZ" ==> c in CONSONANT_BAG
  {
    InEither("BBCCDDDDFFGGGHHJKLLLLMMNNN", "NNNPPRRRRRRSSSSTTTTTTVWWXYZ", c);
    ConsonantBagInTwo();
  }

  lemma InEither(front: string, back: string, c: char)
    ensures c in front || c in back ==> c in front + back
  {
  }

  lemma InVowelBag(c: char)
    requires IsVowel(c)
    ensures c in VOWEL_BAG
  {
    var bag := VOWEL_BAG;
    assert bag[0] == 'A' && bag[5] == 'E' && bag[12] == 'I' && bag[17] == 'O' && bag[22] == 'U';
  }

  /** The bags hold the vowels, and every consonant but Q. */
  lemma BagsHoldAllButQ(c: char)
    ensures c in VOWEL_BAG <==> IsVowel(c)
    ensures c in CONSONANT_BAG <==> IsLetter(c) && !IsVowel(c) && c != 'Q'
  {
    BagHoldsOnly(VOWEL_BAG, true, c) by {
      VowelBag();
    }
    BagHoldsOnly(CONSONANT_BAG, false, c) by {
      ConsonantBag();
    }
    if IsVowel(c) {
      InVowelBag(c);
    } else if Drawable(c) {
      if c <= 'M' {
        InFront(c);
      } else {
        InBack(c);
      }
      InConsonantBag(c);
    }
  }

  lemma BagHoldsOnly(bag: string, vowels: bool, c: char)
    requires BagOf(bag, vowels)
    ensures c in bag ==> Drawable(c) && (IsVowel(c) <==> vowels)
  {
  }

  /** A number below n, made of any number. */
  function Below(number: nat, n: nat): (k: nat)
    requires n > 0
    ensures k < n
  {
    if number < n then number else Below(number - n, n)
  }

  /** A source of random numbers: an arbitrary stream, read in order. */
  class Rng {
    const stream: nat -> nat
    var pos: nat

    constructor (stream: nat -> nat) {
      this.stream, pos := stream, 0;
    }

    /** The next n numbers of the stream. */
    ghost function Next(n: nat): seq<nat>
      reads this
    {
      Reads(stream, pos, n)
    }

    method Intn(n: nat) returns (k: nat)
      requires n > 0
      modifies this
      ensures pos == old(pos) + 1 && k == Below(stream(old(pos)), n)
    {
      k := Below(stream(pos), n);
      pos := pos + 1;
    }
  }

  ghost function Reads(stream: nat -> nat, pos: nat, n: nat): seq<nat> {
    seq(n, i requires 0 <= i < n => stream(pos + i))
  }

  lemma ReadsSplit(stream: nat -> nat, pos: nat, m: nat, n: nat)
    ensures Reads(stream, pos, m + n) == Reads(stream, pos, m) + Reads(stream, pos + m, n)
  {
  }

  // --- shuffling ---

  /** What is left to shuffle once the letter at j has gone to the last place. */
  function Rest(s: string, j: nat): (r: string)
    requires j < |s|
    ensures |r| == |s| - 1
  {
    s[j := s[|s| - 1]][..|s| - 1]
  }

  /** The letters shuffled from the last place to the first: each place gets the letter that the number
      read for it picks from those up to there. */
  ghost function Shuffled(s: string, numbers: seq<nat>): (r: string)
    requires |numbers| == |s|
    ensures |r| == |s|
    decreases |s|
  {
    if |s| <= 1 then s
    else
      var j := Below(numbers[0], |s|);
      Shuffled(Rest(s, j), numbers[1..]) + [s[j]]
  }

  /** One swap, and what is left to shuffle. */
  lemma OneSwap(s: string, number: nat, rest: seq<nat>)
    requires |s| > 1 && |rest| == |s| - 1
    ensures var j := Below(number, |s|);
            Shuffled(s, [number] + rest) == Shuffled(Rest(s, j), rest) + [s[j]]
  {
    var numbers := [number] + rest;
    assert numbers[0] == number && numbers[1..] == rest;
  }

  lemma SwapWithin(s: string, t: string, i: nat, j: nat)
    requires j <= i < |s| && t == s[i := s[j]][j := s[i]]
    ensures t[..i] == Rest(s[..i + 1], j) && t[i..] == [s[..i + 1][j]] + s[i + 1..]
  {
  }

  /** A swap on the way does not change what the shuffle comes to. */
  lemma SwapOnTheWay(s: string, t: string, stream: nat -> nat, pos: nat, i: nat)
    requires 0 < i < |s|
    requires var j := Below(stream(pos), i + 1); t == s[i := s[j]][j := s[i]]
    ensures Shuffled(s[..i + 1], Reads(stream, pos, i + 1)) + s[i + 1..]
         == Shuffled(t[..i], Reads(stream, pos + 1, i)) + t[i..]
  {
    var j := Below(stream(pos), i + 1);
    ReadsSplit(stream, pos, 1, i);
    OneSwap(s[..i + 1], stream(pos), Reads(stream, pos + 1, i));
    SwapWithin(s, t, i, j);
  }

  /** Shuffles the letters in place. */
  method Shuffle(b: array<char>, rng: Rng)
    modifies b, rng
    ensures b[..] == Shuffled(old(b[..]), old(rng.Next(b.Length)))
  {
    ghost var result := Shuffled(b[..], rng.Next(b.Length));
    var i := b.Length;
    assert b[..][..i] == b[..] && b[..][i..] == [];
    while i > 1
      invariant 0 <= i <= b.Length
      invariant Shuffled(b[..][..i], rng.Next(i)) + b[..][i..] == result
    {
      ghost var before, pos := b[..], rng.pos;
      i := i - 1;
      var j := rng.Intn(i + 1);
      b[i], b[j] := b[j], b[i];
      SwapOnTheWay(before, b[..], rng.stream, pos, i);
    }
    SplitAt(b[..], i);
    assert Shuffled(b[..][..i], rng.Next(i)) == b[..][..i];
  }

  lemma RestKeeps(s: string, j: nat)
    requires j < |s|
    ensures multiset(Rest(s, j) + [s[j]]) == multiset(s)
  {
    var last := |s| - 1;
    assert s[j := s[last]] == Rest(s, j) + [s[j := s[last]][last]];
    assert multiset(s[j := s[last]]) == multiset(s) - multiset{s[j]} + multiset{s[last]};
  }

  /** A shuffle keeps the letters, each as often as it was there. */
  lemma {:induction false} ShuffledKeeps(s: string, numbers: seq<nat>)
    requires |numbers| == |s|
    ensures multiset(Shuffled(s, numbers)) == multiset(s)
    decreases |s|
  {
    if |s| > 1 {
      var j := Below(numbers[0], |s|);
      RestKeeps(s, j);
      ShuffledKeeps(Rest(s, j), numbers[1..]);
    }
  }

  lemma SameWithoutLast(s: string, t: string, c: char)
    requires multiset(s + [c]) == multiset(t + [c])
    ensures multiset(s) == multiset(t)
  {
    assert multiset(s) == multiset(s + [c]) - multiset{c};
    assert multiset(t) == multiset(t + [c]) - multiset{c};
  }

  lemma SameLength(s: string, t: string)
    requires multiset(s) == multiset(t)
    ensures |s| == |t|
  {
    assert |s| == |multiset(s)| && |t| == |multiset(t)|;
  }

  lemma Occurs(s: string, c: char) returns (j: nat)
    requires c in multiset(s)
    ensures j < |s| && s[j] == c
  {
    j :| 0 <= j < |s| && s[j] == c;
  }

  /** Some pick puts the last letter in place. */
  lemma PickLast(s: string, t: string) returns (j: nat)
    requires multiset(s) == multiset(t) && t != ""
    ensures |s| == |t| && j < |s| && s[j] == t[|t| - 1]
    ensures multiset(Rest(s, j)) == multiset(t[..|t| - 1])
  {
    SameLength(s, t);
    var last := |t| - 1;
    assert t[last] in multiset(s);
    j := Occurs(s, t[last]);
    RestKeeps(s, j);
    assert t == t[..last] + [t[last]];
    SameWithoutLast(Rest(s, j), t[..last], t[last]);
  }

  lemma ShortArrangement(s: string, t: string)
    requires multiset(s) == multiset(t) && |s| <= 1
    ensures s == t
  {
    SameLength(s, t);
    if s != "" {
      assert s[0] in multiset(t);
    }
  }

  lemma SplitAt(t: string, n: nat)
    requires n <= |t|
    ensures t == t[..n] + t[n..]
  {
  }

  /** Every arrangement of the letters can come out of a shuffle. */
  lemma {:induction false} ShuffleReaches(s: string, t: string) returns (numbers: seq<nat>)
    requires multiset(s) == multiset(t)
    ensures |numbers| == |s| && Shuffled(s, numbers) == t
    decreases |s|
  {
    SameLength(s, t);
    if |s| <= 1 {
      numbers := seq(|s|, i => 0);
      ShortArrangement(s, t);
    } else {
      var j := PickLast(s, t);
      var rest := ShuffleReaches(Rest(s, j), t[..|t| - 1]);
      numbers := [j] + rest;
      OneSwap(s, j, rest);
    }
  }

  // --- drawing ---

  /** One letter of the bag for each number. */
  ghost function Picked(bag: string, numbers: seq<nat>): string
    requires bag != ""
  {
    seq(|numbers|, i requires 0 <= i < |numbers| => bag[Below(numbers[i], |bag|)])
  }

  /** Appends n letters drawn from a bag. */
  method DrawMore(letters: string, bag: string, n: nat, rng: Rng) returns (drawn: string)
    requires bag != ""
    modifies rng
    ensures drawn == letters + Picked(bag, old(rng.Next(n))) && rng.pos == old(rng.pos) + n
  {
    drawn := letters;
    for i := 0 to n
      invariant rng.pos == old(rng.pos) + i
      invariant drawn == letters + Picked(bag, old(rng.Next(n))[..i])
    {
      var k := rng.Intn(|bag|);
      drawn := drawn + [bag[k]];
    }
  }

  /** The board has the intended size and vowels, and letters without a Q. */
  ghost predicate WellDrawn(size: nat, letters: string) {
    && AllDrawable(letters)
    && (size >= 3 ==> |letters| == size && Vowels(letters) == VowelCount(size))
    && (size < 3 ==> |letters| == 3 && Vowels(letters) == 0)
  }

  /** How many letters a draw yields, and how many of them are vowels. */
  function Cells(size: nat): nat {
    if size < 3 then 3 else size
  }

  function VowelsDrawn(size: nat): (n: nat)
    ensures n <= Cells(size)
  {
    if size < 3 then 0 else VowelCount(size)
  }

  /** The numbers read for a board: one for each vowel, for each consonant, and for each swap. */
  datatype Draw = Draw(vowels: seq<nat>, consonants: seq<nat>, swaps: seq<nat>)

  ghost predicate DrawFor(size: nat, d: Draw) {
    |d.vowels| == VowelsDrawn(size) && |d.vowels| + |d.consonants| == |d.swaps| == Cells(size)
  }

  /** The board that comes of a draw. */
  ghost function Grid(d: Draw): string
    requires |d.vowels| + |d.consonants| == |d.swaps|
  {
    Upper(Shuffled(Picked(VOWEL_BAG, d.vowels) + Picked(CONSONANT_BAG, d.consonants), d.swaps))
  }

  /** The next numbers of the stream, taken as a draw. */
  ghost function NextDraw(size: nat, stream: nat -> nat, pos: nat): (d: Draw)
    ensures DrawFor(size, d)
  {
    var k, n := VowelsDrawn(size), Cells(size);
    Draw(Reads(stream, pos, k), Reads(stream, pos + k, n - k), Reads(stream, pos + n, n))
  }

  /** One candidate board. On fewer than three cells the intended count of vowels is negative, and three
      consonants come out. */
  method DrawGrid(size: nat, rng: Rng) returns (letters: string)
    modifies rng
    ensures letters == Grid(NextDraw(size, rng.stream, old(rng.pos)))
    ensures WellDrawn(size, letters)
  {
    GridIsWellDrawn(size, NextDraw(size, rng.stream, rng.pos));
    var drawn := DrawLetters(size, rng);
    drawn := ShuffledCopy(drawn, rng);
    letters := Upper(drawn);
  }

  /** The letters of a board, vowels first. */
  method DrawLetters(size: nat, rng: Rng) returns (drawn: string)
    modifies rng
    ensures var d := NextDraw(size, rng.stream, old(rng.pos));
            drawn == Picked(VOWEL_BAG, d.vowels) + Picked(CONSONANT_BAG, d.consonants)
    ensures rng.pos == old(rng.pos) + Cells(size)
  {
    var nv := VowelCount(size);
    drawn := DrawMore("", VOWEL_BAG, if nv < 0 then 0 else nv, rng);
    drawn := DrawMore(drawn, CONSONANT_BAG, size - nv, rng);
  }

  /** The drawn letters, shuffled. */
  method ShuffledCopy(drawn: string, rng: Rng) returns (shuffled: string)
    modifies rng
    ensures shuffled == Shuffled(drawn, old(rng.Next(|drawn|)))
  {
    var b := new char[|drawn|](i requires 0 <= i < |drawn| => drawn[i]);
    assert b[..] == drawn;
    Shuffle(b, rng);
    return b[..];
  }

  lemma {:induction false} PickedFrom(bag: string, vowels: bool, numbers: seq<nat>)
    requires BagOf(bag, vowels)
    ensures AllDrawable(Picked(bag, numbers)) && Vowels(Picked(bag, numbers)) == if vowels then |numbers| else 0
    decreases |numbers|
  {
    if numbers != [] {
      var init, last := numbers[..|numbers| - 1], numbers[|numbers| - 1];
      PickedFrom(bag, vowels, init);
      assert Picked(bag, numbers) == Picked(bag, init) + [bag[Below(last, |bag|)]];
      VowelsAppend(Picked(bag, init), bag[Below(last, |bag|)]);
    }
  }

  /** Exactly the intended vowels and consonants come out, whatever the numbers. */
  lemma GridIsWellDrawn(size: nat, d: Draw)
    requires DrawFor(size, d)
    ensures WellDrawn(size, Grid(d))
  {
    var vowels, consonants := Picked(VOWEL_BAG, d.vowels), Picked(CONSONANT_BAG, d.consonants);
    VowelBag();
    PickedFrom(VOWEL_BAG, true, d.vowels);
    ConsonantBag();
    PickedFrom(CONSONANT_BAG, false, d.consonants);
    var board := Shuffled(vowels + consonants, d.swaps);
    ShuffledKeeps(vowels + consonants, d.swaps);
    ShuffledLetters(vowels + consonants, board);
    LettersAreNormal(board);
  }

  lemma ShuffledLetters(drawn: string, letters: string)
    requires multiset(drawn) == multiset(letters) && AllDrawable(drawn)
    ensures AllDrawable(letters) && |letters| == |drawn| && Vowels(letters) == Vowels(drawn)
  {
    assert |multiset(letters)| == |letters| && |multiset(drawn)| == |drawn|;
    forall i | 0 <= i < |letters| ensures Drawable(letters[i]) {
      assert letters[i] in multiset(drawn);
    }
  }

  /** The vowels of a board, or its consonants. */
  ghost function Only(s: string, vowels: bool): string {
    if s == "" then ""
    else
      var init, last := s[..|s| - 1], s[|s| - 1];
      Only(init, vowels) + if IsVowel(last) == vowels then [last] else ""
  }

  lemma {:induction false} OnlySplits(s: string)
    ensures multiset(Only(s, true)) + multiset(Only(s, false)) == multiset(s)
    decreases |s|
  {
    if s != "" {
      var init, last := s[..|s| - 1], s[|s| - 1];
      OnlySplits(init);
      assert s == init + [last];
      if IsVowel(last) {
        assert Only(s, true) == Only(init, true) + [last] && Only(s, false) == Only(init, false);
      } else {
        assert Only(s, false) == Only(init, false) + [last] && Only(s, true) == Only(init, true);
      }
    }
  }

  lemma {:induction false} OnlyVowels(s: string)
    ensures |Only(s, true)| == Vowels(s)
    decreases |s|
  {
    if s != "" {
      OnlyVowels(s[..|s| - 1]);
      VowelsAppend(s[..|s| - 1], s[|s| - 1]);
      assert s == s[..|s| - 1] + [s[|s| - 1]];
    }
  }

  lemma {:induction false} OnlyOfKind(s: string, vowels: bool)
    ensures forall c :: c in Only(s, vowels) ==> c in s && IsVowel(c) == vowels
    decreases |s|
  {
    if s != "" {
      OnlyOfKind(s[..|s| - 1], vowels);
    }
  }

  lemma OnlyFromBag(s: string, vowels: bool)
    requires AllDrawable(s)
    ensures forall c :: c in Only(s, vowels) ==> c in if vowels then VOWEL_BAG else CONSONANT_BAG
  {
    OnlyOfKind(s, vowels);
    forall c | c in Only(s, vowels) ensures c in if vowels then VOWEL_BAG else CONSONANT_BAG {
      BagsHoldAllButQ(c);
    }
  }

  /** Letters that are in the bag can be picked from it, in any order. */
  lemma {:induction false} PicksReach(bag: string, s: string) returns (numbers: seq<nat>)
    requires bag != "" && forall c :: c in s ==> c in bag
    ensures Picked(bag, numbers) == s
    decreases |s|
  {
    numbers := [];
    if s != "" {
      var init, last := s[..|s| - 1], s[|s| - 1];
      assert s == init + [last];
      assert last in s && last in bag;
      var before := PicksReach(bag, init);
      var k :| 0 <= k < |bag| && bag[k] == last;
      numbers := before + [k];
    }
  }

  /** Every such board can be drawn. */
  lemma WellDrawnIsGrid(size: nat, letters: string) returns (d: Draw)
    requires WellDrawn(size, letters)
    ensures DrawFor(size, d) && Grid(d) == letters
  {
    var vowels, consonants := Only(letters, true), Only(letters, false);
    OnlySplits(letters);
    OnlyVowels(letters);
    OnlyFromBag(letters, true);
    OnlyFromBag(letters, false);
    var first := PicksReach(VOWEL_BAG, vowels);
    var second := PicksReach(CONSONANT_BAG, consonants);
    SameLength(vowels + consonants, letters);
    var swaps := ShuffleReaches(vowels + consonants, letters);
    d := Draw(first, second, swaps);
    LettersAreNormal(letters);
  }

  /** The boards that can be drawn are exactly the well-drawn ones. */
  lemma GridsAreTheWellDrawn(size: nat, letters: string)
    ensures WellDrawn(size, letters) <==> exists d :: DrawFor(size, d) && Grid(d) == letters
  {
    if WellDrawn(size, letters) {
      var d := WellDrawnIsGrid(size, letters);
    }
    if d :| DrawFor(size, d) && Grid(d) == letters {
      GridIsWellDrawn(size, d);
    }
  }
}
