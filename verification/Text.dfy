/** ASCII text: the letter tests, upper-casing and trimming that every word goes through.
    A `string` stands for a Go byte string; each character is one ASCII byte. */
module Text {

  /** The shortest word the game accepts. */
  const MIN_WORD_LEN := 3

  predicate IsLetter(c: char) {
    'A' <= c <= 'Z'
  }

  /** The slot of a letter among the 26. */
  function LetterIndex(c: char): int {
    c as int - 'A' as int
  }

  predicate AllLetters(s: string) {
    forall i :: 0 <= i < |s| ==> IsLetter(s[i])
  }

  function UpperChar(c: char): char {
    if 'a' <= c <= 'z' then (c as int - 32) as char else c
  }

  function Upper(s: string): string {
    seq(|s|, i requires 0 <= i < |s| => UpperChar(s[i]))
  }

  predicate IsSpace(c: char) {
    c == ' ' || '\t' <= c <= '\r'
  }

  function TrimLeft(s: string): string {
    if s != "" && IsSpace(s[0]) then TrimLeft(s[1..]) else s
  }

  function TrimRight(s: string): string {
    if s != "" && IsSpace(s[|s| - 1]) then TrimRight(s[..|s| - 1]) else s
  }

  function Trim(s: string): string {
    TrimRight(TrimLeft(s))
  }

  /** The form in which a submitted word is judged: trimmed, then upper-cased. */
  function Normalize(s: string): string {
    Upper(Trim(s))
  }

  ghost predicate Trimmed(s: string) {
    s != "" ==> !IsSpace(s[0]) && !IsSpace(s[|s| - 1])
  }

  lemma TrimLeftStarts(s: string)
    ensures TrimLeft(s) == "" || !IsSpace(TrimLeft(s)[0])
  {
  }

  lemma {:induction false} TrimRightKeepsStart(s: string)
    requires s == "" || !IsSpace(s[0])
    ensures Trimmed(TrimRight(s))
  {
    if s != "" && IsSpace(s[|s| - 1]) {
      TrimRightKeepsStart(s[..|s| - 1]);
    }
  }

  lemma TrimIsTrimmed(s: string)
    ensures Trimmed(Trim(s))
  {
    TrimLeftStarts(s);
    TrimRightKeepsStart(TrimLeft(s));
  }

  /** Normalising twice is normalising once: a room may hand an already normalised word to the
      scorer, which normalises it again. */
  lemma NormalizeIdempotent(s: string)
    ensures Normalize(Normalize(s)) == Normalize(s)
  {
    TrimIsTrimmed(s);
    var t := Trim(s);
    assert Trimmed(Upper(t));
    assert Trim(Upper(t)) == Upper(t);
    assert Upper(Upper(t)) == Upper(t);
  }

  /** A word already in A-Z is left alone by normalisation. */
  lemma LettersAreNormal(s: string)
    requires AllLetters(s)
    ensures Upper(s) == s && Normalize(s) == s
  {
    assert Trim(s) == s;
    assert Upper(s) == s;
  }

  // --- what a normal form is, in plain terms ---

  const ALPHABET := "ABCDEFGHIJKLMNOPQRSTUVWXYZ"

  lemma LettersAreTheAlphabet(c: char)
    ensures IsLetter(c) <==> c in ALPHABET
  {
    if IsLetter(c) {
      assert ALPHABET[c as int - 65] == c;
    }
  }

  /** Tab, newline, vertical tab, form feed, return or space. */
  predicate BlankChar(c: char) {
    c as int in {9, 10, 11, 12, 13, 32}
  }

  predicate Blank(s: string) {
    forall i :: 0 <= i < |s| ==> BlankChar(s[i])
  }

  /** c is u, or u is one of A-Z and c is that letter in lower case. */
  predicate SameButCase(c: char, u: char) {
    c == u || ('A' <= u <= 'Z' && c as int == u as int + 32)
  }

  /** The same character, or the same letter of A-Z in its two cases. */
  predicate SameLetter(a: char, b: char) {
    || a == b
    || ('A' <= a <= 'Z' && b as int == a as int + 32)
    || ('A' <= b <= 'Z' && a as int == b as int + 32)
  }

  predicate InAnyCase(v: string, u: string) {
    |v| == |u| && forall i :: 0 <= i < |v| ==> SameButCase(v[i], u[i])
  }

  /** No lower-case letter, and no blank at either end. */
  predicate Plain(u: string) {
    && (forall i :: 0 <= i < |u| ==> !('a' <= u[i] <= 'z'))
    && (u != "" ==> !BlankChar(u[0]) && !BlankChar(u[|u| - 1]))
  }

  ghost predicate Padded(raw: string, before: string, v: string, after: string) {
    raw == before + v + after && Blank(before) && Blank(after)
  }

  /** raw is a way to write the plain word u: in any case, with blanks around it. */
  ghost predicate Writes(raw: string, u: string) {
    Plain(u) && exists before, v, after :: Padded(raw, before, v, after) && InAnyCase(v, u)
  }

  lemma {:induction false} TrimLeftDrops(before: string, s: string)
    requires Blank(before) && (s == "" || !BlankChar(s[0]))
    ensures TrimLeft(before + s) == s
    decreases |before|
  {
    if before == "" {
      assert before + s == s;
    } else {
      TrimLeftDrops(before[1..], s);
      assert (before + s)[1..] == before[1..] + s;
    }
  }

  lemma {:induction false} TrimRightDrops(s: string, after: string)
    requires Blank(after) && (s == "" || !BlankChar(s[|s| - 1]))
    ensures TrimRight(s + after) == s
    decreases |after|
  {
    if after == "" {
      assert s + after == s;
    } else {
      TrimRightDrops(s, after[..|after| - 1]);
      assert (s + after)[..|s + after| - 1] == s + after[..|after| - 1];
    }
  }

  lemma TrimDropsPadding(before: string, v: string, after: string)
    requires Blank(before) && Blank(after)
    requires v != "" ==> !BlankChar(v[0]) && !BlankChar(v[|v| - 1])
    ensures Trim(before + v + after) == v
  {
    if v == "" {
      TrimLeftDrops(before + after, "");
      assert before + v + after == before + after + "";
    } else {
      TrimLeftDrops(before, v + after);
      TrimRightDrops(v, after);
      assert before + v + after == before + (v + after);
    }
  }

  lemma {:induction false} TrimLeftSplits(s: string) returns (before: string)
    ensures Blank(before) && s == before + TrimLeft(s)
    decreases |s|
  {
    before := "";
    if s != "" && IsSpace(s[0]) {
      before := TrimLeftSplits(s[1..]);
      before := [s[0]] + before;
    }
  }

  lemma {:induction false} TrimRightSplits(s: string) returns (after: string)
    ensures Blank(after) && s == TrimRight(s) + after
    decreases |s|
  {
    after := "";
    if s != "" && IsSpace(s[|s| - 1]) {
      after := TrimRightSplits(s[..|s| - 1]);
      assert s == s[..|s| - 1] + [s[|s| - 1]];
      after := after + [s[|s| - 1]];
    }
  }

  lemma InAnyCaseUpper(v: string, u: string)
    requires Plain(u) && InAnyCase(v, u)
    ensures Upper(v) == u && (v != "" ==> !BlankChar(v[0]) && !BlankChar(v[|v| - 1]))
  {
    if v != "" {
      assert SameButCase(v[0], u[0]) && SameButCase(v[|v| - 1], u[|u| - 1]);
    }
  }

  lemma WritesNormalizes(raw: string, u: string)
    requires Writes(raw, u)
    ensures Normalize(raw) == u
  {
    var before, v, after :| Padded(raw, before, v, after) && InAnyCase(v, u);
    InAnyCaseUpper(v, u);
    TrimDropsPadding(before, v, after);
  }

  lemma UpperIsPlain(v: string)
    requires Trimmed(v)
    ensures Plain(Upper(v)) && InAnyCase(v, Upper(v))
  {
  }

  lemma NormalizesWrites(raw: string)
    ensures Writes(raw, Normalize(raw))
  {
    var before := TrimLeftSplits(raw);
    var after := TrimRightSplits(TrimLeft(raw));
    TrimIsTrimmed(raw);
    UpperIsPlain(Trim(raw));
    assert Padded(raw, before, Trim(raw), after);
  }

  /** The normal form of a raw string is the one plain word that it writes. */
  lemma WritesItsNormalForm(raw: string, u: string)
    ensures Writes(raw, u) <==> Normalize(raw) == u
  {
    if Writes(raw, u) {
      WritesNormalizes(raw, u);
    }
    NormalizesWrites(raw);
  }

  /** A word in A-Z is plain, and written by itself in any case with any padding. */
  lemma AnyCaseWritesWord(before: string, v: string, after: string, u: string)
    requires Blank(before) && Blank(after) && |v| == |u|
    requires forall i :: 0 <= i < |u| ==> 'A' <= u[i] <= 'Z' && (v[i] == u[i] || v[i] as int == u[i] as int + 32)
    ensures Writes(before + v + after, u) && Normalize(before + v + after) == u
  {
    assert Padded(before + v + after, before, v, after);
    WritesItsNormalForm(before + v + after, u);
  }

  /** Upper-casing adds up the two cases of a letter. */
  lemma {:induction false} UpperCounts(s: string, c: char)
    requires 'A' <= c <= 'Z'
    ensures multiset(Upper(s))[c] == multiset(s)[c] + multiset(s)[(c as int + 32) as char]
    decreases |s|
  {
    if s != "" {
      var init, last := s[..|s| - 1], s[|s| - 1];
      UpperCounts(init, c);
      assert s == init + [last];
      assert Upper(s) == Upper(init) + [UpperChar(last)];
    }
  }
}
