/** The board solver: a depth-first walk of the board, pruned by the trie. */
module Solver {
  import opened Text
  import opened Tries
  import opened Boards
  import opened Mask
  import opened Seqs

  // --- what the search is to find ---

  /** s is an indexed word of playable length spelled by a trail that starts with `pre`. */
  ghost predicate Traced(nodes: seq<Node>, letters: string, w: nat, h: nat, pre: seq<int>, s: string)
    requires w * h <= |letters|
  {
    && Accepts(nodes, s) && |s| >= MIN_WORD_LEN
    && exists path :: pre <= path && Trail(w, h, path) && Spell(letters, path) == s
  }

  ghost predicate TracedVia(nodes: seq<Node>, letters: string, w: nat, h: nat,
                            pre: seq<int>, cells: set<int>, s: string)
    requires w * h <= |letters|
  {
    exists cell :: cell in cells && Traced(nodes, letters, w, h, pre + [cell], s)
  }

  ghost predicate Hit(nodes: seq<Node>, s: string) {
    Accepts(nodes, s) && |s| >= MIN_WORD_LEN
  }

  ghost function Neighbours(w: nat, h: nat, cell: int): set<int> {
    set n | 0 <= n < w * h && Adjacent(w, h, cell, n)
  }

  /** The words traced from a path are the path's own word and those traced through one of the
      last cell's neighbours. */
  lemma TracedSplit(nodes: seq<Node>, letters: string, w: nat, h: nat, pre: seq<int>, s: string)
    requires w * h <= |letters| && pre != [] && Trail(w, h, pre)
    ensures Traced(nodes, letters, w, h, pre, s) <==>
            || (Hit(nodes, s) && s == Spell(letters, pre))
            || TracedVia(nodes, letters, w, h, pre, Neighbours(w, h, pre[|pre| - 1]), s)
  {
    if Traced(nodes, letters, w, h, pre, s) {
      var path :| pre <= path && Trail(w, h, path) && Spell(letters, path) == s;
      if path != pre {
        var n := path[|pre|];
        assert pre + [n] <= path;
        assert path[|pre| - 1] == pre[|pre| - 1];
        assert n in Neighbours(w, h, pre[|pre| - 1]);
        assert Traced(nodes, letters, w, h, pre + [n], s);
      }
    }
    if TracedVia(nodes, letters, w, h, pre, Neighbours(w, h, pre[|pre| - 1]), s) {
      var n :| n in Neighbours(w, h, pre[|pre| - 1]) && Traced(nodes, letters, w, h, pre + [n], s);
      var path :| pre + [n] <= path && Trail(w, h, path) && Spell(letters, path) == s;
      assert pre <= path;
    }
  }

  /** Nothing is traced through a cell that the mask already holds. */
  lemma NothingThroughMarked(nodes: seq<Node>, letters: string, w: nat, h: nat, pre: seq<int>, cell: int, s: string)
    requires w * h <= |letters| && cell in pre && cell < 64
    ensures !Traced(nodes, letters, w, h, pre + [cell], s)
  {
    var i :| 0 <= i < |pre| && pre[i] == cell;
    forall path | pre + [cell] <= path ensures !Trail(w, h, path) {
      assert path[i] == (pre + [cell])[i] == cell;
      assert path[|pre|] == (pre + [cell])[|pre|] == cell;
    }
  }

  /** Nothing is traced through a cell whose letter leaves the trie: pruning loses no word. */
  lemma NothingThroughPruned(nodes: seq<Node>, letters: string, w: nat, h: nat, pre: seq<int>, cell: int, s: string)
    requires WellShaped(nodes) && w * h <= |letters|
    requires Trail(w, h, pre) && OnBoard(w, h, cell)
    requires Child(nodes, Walk(nodes, Spell(letters, pre)), letters[cell]) == ABSENT
    ensures !Traced(nodes, letters, w, h, pre + [cell], s)
  {
    var p := Spell(letters, pre);
    WalkStep(nodes, p, letters[cell]);
    SpellExtended(letters, pre, cell);
    if Traced(nodes, letters, w, h, pre + [cell], s) {
      var path :| pre + [cell] <= path && Trail(w, h, path) && Spell(letters, path) == s;
      SpellPrefix(letters, pre + [cell], path);
      PrefixHolds(nodes, p + [letters[cell]], s);
    }
  }

  // --- the search ---

  /** The map of found words that all recursive calls share. */
  class FoundWords {
    var words: set<string>

    constructor ()
      ensures words == {}
    {
      words := {};
    }
  }

  /** Go's append on a slice of the given length over a backing array: it writes into the
      backing array while there is room, and moves to a larger one when there is not. */
  method Append(buf: array<char>, len: nat, c: char) returns (out: array<char>)
    requires len <= buf.Length
    modifies buf
    ensures out == buf || fresh(out)
    ensures len < out.Length && out[..len + 1] == old(buf[..len]) + [c]
    ensures buf[..len] == old(buf[..len])
  {
    if len < buf.Length {
      out := buf;
    } else {
      out := new char[2 * len + 1];
      for i := 0 to len
        invariant out[..i] == buf[..i]
        invariant buf[..] == old(buf[..])
      {
        out[i] := buf[i];
      }
    }
    out[len] := c;
  }

  /** The neighbours of a cell that come before the offset (dr, dc) in the two nested loops. */
  ghost function NeighboursBefore(w: nat, h: nat, cell: int, dr: int, dc: int): set<int> {
    set n | 0 <= n < w * h && Adjacent(w, h, cell, n)
            && (n / w - cell / w < dr || (n / w - cell / w == dr && n % w - cell % w < dc))
  }

  /** Whether the offset (dr, dc) leads from the cell to another cell of the board. */
  predicate OffsetOnBoard(w: nat, h: nat, cell: int, dr: int, dc: int)
    requires w > 0
  {
    && !(dr == 0 && dc == 0)
    && 0 <= cell / w + dr < h && 0 <= cell % w + dc < w
  }

  /** One turn of the inner loop visits the neighbour at its offset, if there is one. */
  lemma NextNeighbour(w: nat, h: nat, cell: int, dr: int, dc: int)
    requires w > 0 && OnBoard(w, h, cell) && -1 <= dr <= 1 && -1 <= dc <= 1
    ensures var before, after := NeighboursBefore(w, h, cell, dr, dc), NeighboursBefore(w, h, cell, dr, dc + 1);
            var n := (cell / w + dr) * w + (cell % w + dc);
            if OffsetOnBoard(w, h, cell, dr, dc) then Adjacent(w, h, cell, n) && after == before + {n}
            else after == before
  {
    var n := (cell / w + dr) * w + (cell % w + dc);
    RowAndColumn(w, h, cell);
    if OffsetOnBoard(w, h, cell, dr, dc) {
      CellOf(w, h, cell / w + dr, cell % w + dc);
    }
    var before, after := NeighboursBefore(w, h, cell, dr, dc), NeighboursBefore(w, h, cell, dr, dc + 1);
    forall m | m in after && m !in before
      ensures OffsetOnBoard(w, h, cell, dr, dc) && m == n
    {
      RowAndColumn(w, h, m);
    }
  }

  /** The end of the inner loop is the start of the next turn of the outer one. */
  lemma NextRow(w: nat, h: nat, cell: int, dr: int)
    ensures NeighboursBefore(w, h, cell, dr, 2) == NeighboursBefore(w, h, cell, dr + 1, -1)
  {
  }

  lemma FirstAndLastNeighbour(w: nat, h: nat, cell: int)
    ensures NeighboursBefore(w, h, cell, -1, -1) == {}
    ensures NeighboursBefore(w, h, cell, 2, -1) == Neighbours(w, h, cell)
  {
  }

  /** What a recursive call is handed for the path walked so far: the mask denotes the path's
      cells, the buffer slice holds its letters and the node is theirs in the trie. */
  ghost predicate Agrees(nodes: seq<Node>, letters: string, w: nat, h: nat,
                         node: int, used: bv64, slice: seq<char>, path: seq<int>) {
    && WellShaped(nodes) && w * h <= |letters|
    && Trail(w, h, path) && Denotes(used, path)
    && slice == Spell(letters, path)
    && node == Walk(nodes, slice) && 0 <= node < |nodes|
  }

  /** Walking on to a fresh cell whose letter the trie knows keeps everything in agreement. */
  lemma AgreesExtended(nodes: seq<Node>, letters: string, w: nat, h: nat,
                       node: int, used: bv64, slice: seq<char>, path: seq<int>, cell: int)
    requires Agrees(nodes, letters, w, h, node, used, slice, path)
    requires OnBoard(w, h, cell) && (path != [] ==> Adjacent(w, h, path[|path| - 1], cell))
    requires !Marked(used, cell) && Child(nodes, node, letters[cell]) != ABSENT
    ensures Agrees(nodes, letters, w, h, Child(nodes, node, letters[cell]), used | Bit(cell),
                   slice + [letters[cell]], path + [cell])
    ensures node < Child(nodes, node, letters[cell])
  {
    TrailExtended(w, h, path, cell);
    SpellExtended(letters, path, cell);
    WalkStep(nodes, slice, letters[cell]);
    DenotesExtended(used, path, cell);
  }

  lemma NothingBeyond(nodes: seq<Node>, letters: string, w: nat, h: nat,
                      node: int, used: bv64, slice: seq<char>, path: seq<int>, cell: int, s: string)
    requires Agrees(nodes, letters, w, h, node, used, slice, path) && OnBoard(w, h, cell)
    requires Marked(used, cell) || Child(nodes, node, letters[cell]) == ABSENT
    ensures !Traced(nodes, letters, w, h, path + [cell], s)
  {
    if Marked(used, cell) {
      NothingThroughMarked(nodes, letters, w, h, path, cell, s);
    } else {
      NothingThroughPruned(nodes, letters, w, h, path, cell, s);
    }
  }

  /** Extends the current path by one cell and records every word traced from there. The caller's
      part of the buffer is left as it was, although deeper calls write to the same array beyond
      it. Each call goes strictly down the trie, whose nodes are numbered upwards. */
  method Dfs(t: Trie, letters: string, w: nat, h: nat, cell: int, node: int, used: bv64,
             buf: array<char>, len: nat, found: FoundWords, ghost path: seq<int>)
    requires t.Valid() && len <= buf.Length
    requires Agrees(t.nodes, letters, w, h, node, used, buf[..len], path)
    requires OnBoard(w, h, cell) && (path != [] ==> Adjacent(w, h, path[|path| - 1], cell))
    modifies found, buf
    ensures forall s :: s in found.words <==>
              old(s in found.words) || Traced(t.nodes, letters, w, h, path + [cell], s)
    ensures buf[..len] == old(buf[..len])
    decreases |t.nodes| - node, 0
  {
    if used & Bit(cell) != 0 {
      assert Marked(used, cell);
      forall s ensures !Traced(t.nodes, letters, w, h, path + [cell], s) {
        NothingBeyond(t.nodes, letters, w, h, node, used, buf[..len], path, cell, s);
      }
      return;
    }
    var next, ok := t.Step(node, letters[cell]);
    if !ok {
      forall s ensures !Traced(t.nodes, letters, w, h, path + [cell], s) {
        NothingBeyond(t.nodes, letters, w, h, node, used, buf[..len], path, cell, s);
      }
      return;
    }
    assert !Marked(used, cell);
    AgreesExtended(t.nodes, letters, w, h, node, used, buf[..len], path, cell);
    var grown := Append(buf, len, letters[cell]);
    assert grown[..len] == buf[..len];
    ghost var before := found.words;
    var isWord := t.IsWord(next);
    if isWord && len + 1 >= MIN_WORD_LEN {
      found.words := found.words + {grown[..len + 1]};
    }
    ghost var own := found.words;
    DfsAround(t, letters, w, h, cell, next, used | Bit(cell), grown, len + 1, found, path + [cell]);
    forall s ensures s in found.words <==> s in before || Traced(t.nodes, letters, w, h, path + [cell], s) {
      TracedSplit(t.nodes, letters, w, h, path + [cell], s);
    }
    assert buf[..len] == grown[..len + 1][..len] || fresh(grown);
  }

  /** The second half of a recursive call: the two loops over the neighbours of its cell. */
  method DfsAround(t: Trie, letters: string, w: nat, h: nat, cell: int, next: int, used: bv64,
                   buf: array<char>, len: nat, found: FoundWords, ghost path: seq<int>)
    requires t.Valid() && len <= buf.Length
    requires Agrees(t.nodes, letters, w, h, next, used, buf[..len], path)
    requires path != [] && path[|path| - 1] == cell
    modifies found, buf
    ensures forall s :: s in found.words <==>
              old(s in found.words) || TracedVia(t.nodes, letters, w, h, path, Neighbours(w, h, cell), s)
    ensures buf[..len] == old(buf[..len])
    decreases |t.nodes| - next, 1
  {
    ghost var done: set<int> := {};
    FirstAndLastNeighbour(w, h, cell);
    var row, col := cell / w, cell % w;
    for dr := -1 to 2
      invariant done == NeighboursBefore(w, h, cell, dr, -1)
      invariant buf[..len] == old(buf[..len])
      invariant forall s :: s in found.words <==>
                  old(s in found.words) || TracedVia(t.nodes, letters, w, h, path, done, s)
    {
      for dc := -1 to 2
        invariant done == NeighboursBefore(w, h, cell, dr, dc)
        invariant buf[..len] == old(buf[..len])
        invariant forall s :: s in found.words <==>
                    old(s in found.words) || TracedVia(t.nodes, letters, w, h, path, done, s)
      {
        NextNeighbour(w, h, cell, dr, dc);
        if dr == 0 && dc == 0 {
          continue;
        }
        var nr, nc := row + dr, col + dc;
        if nr < 0 || nr >= h || nc < 0 || nc >= w {
          continue;
        }
        Dfs(t, letters, w, h, nr * w + nc, next, used, buf, len, found, path);
        done := done + {nr * w + nc};
      }
      NextRow(w, h, cell, dr);
    }
  }

  /** Everything the solver is to return: the indexed words of playable length spelled by a
      trail. */
  ghost predicate Answer(nodes: seq<Node>, letters: string, w: nat, h: nat, s: string)
    requires w * h <= |letters|
  {
    Traced(nodes, letters, w, h, [], s)
  }

  ghost predicate TracedFrom(nodes: seq<Node>, letters: string, w: nat, h: nat, start: int, s: string)
    requires w * h <= |letters|
  {
    exists cell :: 0 <= cell < start && Traced(nodes, letters, w, h, [cell], s)
  }

  lemma AnswerHasStart(nodes: seq<Node>, letters: string, w: nat, h: nat, s: string)
    requires w * h <= |letters|
    ensures Answer(nodes, letters, w, h, s) <==> TracedFrom(nodes, letters, w, h, w * h, s)
  {
    if Answer(nodes, letters, w, h, s) {
      var path :| [] <= path && Trail(w, h, path) && Spell(letters, path) == s;
      assert [path[0]] <= path;
      assert Traced(nodes, letters, w, h, [path[0]], s);
    }
    if TracedFrom(nodes, letters, w, h, w * h, s) {
      var cell :| 0 <= cell < w * h && Traced(nodes, letters, w, h, [cell], s);
      var path :| [cell] <= path && Trail(w, h, path) && Spell(letters, path) == s;
      assert [] <= path;
    }
  }

  /** The words of a board: without duplicates, exactly the answers. */
  method Solve(t: Trie, letters: string, w: nat, h: nat) returns (out: seq<string>)
    requires t.Valid() && w * h <= |letters|
    ensures NoDuplicates(out)
    ensures forall s :: s in out <==> Answer(t.nodes, letters, w, h, s)
  {
    var found := new FoundWords();
    var used: bv64 := 0;
    var buf := new char[w + h];
    DenotesNothing();
    for start := 0 to w * h
      invariant fresh(found) && fresh(buf)
      invariant forall s :: s in found.words <==> TracedFrom(t.nodes, letters, w, h, start, s)
    {
      assert buf[..0] == Spell(letters, []);
      Dfs(t, letters, w, h, start, ROOT, used, buf, 0, found, []);
      assert [] + [start] == [start];
    }
    forall s ensures s in found.words <==> Answer(t.nodes, letters, w, h, s) {
      AnswerHasStart(t.nodes, letters, w, h, s);
    }
    out := Listed(found.words);
    assert forall s :: s in out <==> s in Elements(out);
  }

  // --- the rule of the game, and where the mask enforces it ---

  /** s is an indexed word of playable length spelled without using a cell twice. */
  ghost predicate Playable(nodes: seq<Node>, letters: string, w: nat, h: nat, s: string)
    requires w * h <= |letters|
  {
    && Accepts(nodes, s) && |s| >= MIN_WORD_LEN
    && exists path :: SimplePath(w, h, path) && Spell(letters, path) == s
  }

  lemma AnswersArePlayable(nodes: seq<Node>, letters: string, w: nat, h: nat, s: string)
    requires w * h <= |letters| && w * h <= 64
    ensures Answer(nodes, letters, w, h, s) <==> Playable(nodes, letters, w, h, s)
  {
    if Answer(nodes, letters, w, h, s) {
      var path :| [] <= path && Trail(w, h, path) && Spell(letters, path) == s;
      assert SimplePath(w, h, path);
    }
    if Playable(nodes, letters, w, h, s) {
      var path :| SimplePath(w, h, path) && Spell(letters, path) == s;
      assert [] <= path && Trail(w, h, path);
    }
  }

  /** The solver is right on every board of this size, for every trie and every lettering. */
  ghost predicate RightOnSize(w: nat, h: nat) {
    forall nodes, words, letters, s ::
      BuiltFrom(nodes, words) && w * h <= |letters| ==>
        (Answer(nodes, letters, w, h, s) <==> Playable(nodes, letters, w, h, s))
  }

  /** The mask does its job exactly on the boards that fit in it. */
  lemma RightExactlyWhenMaskFits(w: nat, h: nat)
    ensures RightOnSize(w, h) <==> w * h <= 64
  {
    if w * h <= 64 {
      forall nodes, words, letters, s | BuiltFrom(nodes, words) && w * h <= |letters|
        ensures Answer(nodes, letters, w, h, s) <==> Playable(nodes, letters, w, h, s)
      {
        AnswersArePlayable(nodes, letters, w, h, s);
      }
    } else {
      var nodes, letters := CellUsedTwice(w, h);
    }
  }

  lemma NeighbourOf64(w: nat, h: nat) returns (n: int)
    requires w * h > 64
    ensures Adjacent(w, h, 64, n) && Adjacent(w, h, n, 64)
  {
    if w <= 64 {
      n := 64 - w;
      DivModUnique(n, w, 64 / w - 1, 64 % w);
    } else {
      n := 63;
    }
  }

  /** A board with a single A, on cell 64, and a single B, on cell n. */
  function AbaBoard(size: nat, n: int): (letters: string)
    requires size > 64 && n != 64
    ensures |letters| == size && AllLetters(letters)
    ensures forall i :: 0 <= i < size ==> (letters[i] == 'A' <==> i == 64)
  {
    seq(size, i => if i == 64 then 'A' else if i == n then 'B' else 'C')
  }

  lemma AbaNeedsCellTwice(w: nat, h: nat, letters: string, path: seq<int>)
    requires w * h <= |letters| && SimplePath(w, h, path)
    requires forall i :: 0 <= i < |letters| ==> (letters[i] == 'A' <==> i == 64)
    ensures Spell(letters, path) != "ABA"
  {
    if |path| == 3 {
      assert Spell(letters, path)[0] == letters[path[0]] && Spell(letters, path)[2] == letters[path[2]];
      assert path[0] != path[2];
    }
  }

  lemma AbaTrail(w: nat, h: nat, n: int)
    requires w * h > 64 && Adjacent(w, h, 64, n) && Adjacent(w, h, n, 64)
    ensures Trail(w, h, [64, n, 64]) && Spell(AbaBoard(w * h, n), [64, n, 64]) == "ABA"
  {
  }

  /** A board past the mask: the solver goes back to cell 64 and reports ABA, which no path of
      distinct cells spells. */
  lemma CellUsedTwice(w: nat, h: nat) returns (nodes: seq<Node>, letters: string)
    requires w * h > 64
    ensures BuiltFrom(nodes, ["ABA"]) && |letters| == w * h
    ensures AllLetters(letters) && forall i :: 0 <= i < |letters| ==> (letters[i] == 'A' <==> i == 64)
    ensures Answer(nodes, letters, w, h, "ABA") && !Playable(nodes, letters, w, h, "ABA")
  {
    nodes := BuildOne("ABA");
    assert Accepts(nodes, "ABA") by {
      assert AllLetters("ABA") && "ABA" in ["ABA"];
    }
    var n := NeighbourOf64(w, h);
    letters := AbaBoard(w * h, n);
    AbaTrail(w, h, n);
    assert [] <= [64, n, 64];
    forall path | SimplePath(w, h, path) ensures Spell(letters, path) != "ABA" {
      AbaNeedsCellTwice(w, h, letters, path);
    }
  }
}
