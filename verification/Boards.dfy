/** Letter boards: cells in row-major order, 8-way adjacency, and the trails the solver walks. */
module Boards {

  ghost predicate OnBoard(w: nat, h: nat, cell: int) {
    0 <= cell < w * h
  }

  /** Two different cells at most one row and one column apart. */
  predicate Adjacent(w: nat, h: nat, a: int, b: int) {
    && 0 < w && 0 <= a < w * h && 0 <= b < w * h && a != b
    && -1 <= b / w - a / w <= 1
    && -1 <= b % w - a % w <= 1
  }

  /** A walk over adjacent cells that never comes back to a cell the 64-bit mask can mark. */
  ghost predicate Trail(w: nat, h: nat, path: seq<int>) {
    && (forall i :: 0 <= i < |path| ==> OnBoard(w, h, path[i]))
    && (forall i :: 0 < i < |path| ==> Adjacent(w, h, path[i - 1], path[i]))
    && (forall i, j :: 0 <= i < j < |path| && path[i] == path[j] ==> path[i] >= 64)
  }

  /** A walk over adjacent cells that never comes back to any cell: the rule of the game. */
  ghost predicate SimplePath(w: nat, h: nat, path: seq<int>) {
    && (forall i :: 0 <= i < |path| ==> OnBoard(w, h, path[i]))
    && (forall i :: 0 < i < |path| ==> Adjacent(w, h, path[i - 1], path[i]))
    && (forall i, j :: 0 <= i < j < |path| ==> path[i] != path[j])
  }

  /** The word spelled along a path. */
  ghost function Spell(letters: string, path: seq<int>): string
    requires forall i :: 0 <= i < |path| ==> 0 <= path[i] < |letters|
  {
    seq(|path|, i requires 0 <= i < |path| => letters[path[i]])
  }

  lemma TrailPrefix(w: nat, h: nat, path: seq<int>, n: nat)
    requires Trail(w, h, path) && n <= |path|
    ensures Trail(w, h, path[..n])
  {
  }

  lemma TrailExtended(w: nat, h: nat, path: seq<int>, cell: int)
    ensures Trail(w, h, path + [cell]) <==>
            && Trail(w, h, path) && OnBoard(w, h, cell)
            && (path != [] ==> Adjacent(w, h, path[|path| - 1], cell))
            && (cell in path ==> cell >= 64)
  {
    var longer := path + [cell];
    if Trail(w, h, longer) {
      TrailPrefix(w, h, longer, |path|);
      assert longer[..|path|] == path;
      assert longer[|path|] == cell;
      if path != [] {
        assert longer[|path| - 1] == path[|path| - 1];
      }
    }
  }

  lemma SpellExtended(letters: string, path: seq<int>, cell: int)
    requires forall i :: 0 <= i < |path| ==> 0 <= path[i] < |letters|
    requires 0 <= cell < |letters|
    ensures Spell(letters, path + [cell]) == Spell(letters, path) + [letters[cell]]
  {
  }

  lemma SpellPrefix(letters: string, pre: seq<int>, path: seq<int>)
    requires pre <= path
    requires forall i :: 0 <= i < |path| ==> 0 <= path[i] < |letters|
    ensures forall i :: 0 <= i < |pre| ==> 0 <= pre[i] < |letters|
    ensures Spell(letters, pre) <= Spell(letters, path)
  {
    assert pre == path[..|pre|];
    assert Spell(letters, path)[..|pre|] == Spell(letters, pre);
  }

  /** Row-major coordinates are unique. */
  lemma RowMajor(w: nat, row: int, col: int)
    requires 0 <= col < w
    ensures (row * w + col) / w == row && (row * w + col) % w == col
  {
    DivModUnique(row * w + col, w, row, col);
  }

  lemma Multiple(k: int, w: nat)
    ensures k >= 1 ==> k * w >= w
  {
  }

  lemma DivModUnique(n: int, w: nat, q: int, r: int)
    requires 0 <= r < w && n == q * w + r
    ensures n / w == q && n % w == r
  {
    var q', r' := n / w, n % w;
    assert (q - q') * w == r' - r;
    Multiple(q - q', w);
    Multiple(q' - q, w);
  }

  lemma CellOf(w: nat, h: nat, row: int, col: int)
    requires 0 <= row < h && 0 <= col < w
    ensures 0 <= row * w + col < w * h
    ensures (row * w + col) / w == row && (row * w + col) % w == col
  {
    RowMajor(w, row, col);
    Multiple(row, w);
    Multiple(h - row, w);
    assert (h - row) * w == w * h - row * w;
  }

  lemma RowAndColumn(w: nat, h: nat, cell: int)
    requires 0 < w && 0 <= cell < w * h
    ensures 0 <= cell / w < h && 0 <= cell % w < w
    ensures cell == cell / w * w + cell % w
  {
    Multiple(cell / w - h + 1, w);
    assert (cell / w - h) * w == cell / w * w - h * w;
  }
}
