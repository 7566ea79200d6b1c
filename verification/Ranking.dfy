/** The standings of a race: players by score, ties broken by join order. */
module Ranking {
  import opened Seqs

  /** What counts for a player in a race. */
  datatype PlayerState = PlayerState(score: nat, words: nat, found: set<string>)

  type Players = map<string, PlayerState>

  function ScoreIn(players: Players, id: string): nat {
    if id in players then players[id].score else 0
  }

  /** The place of an id in the join order. */
  function Position(order: seq<string>, id: string): nat {
    if order == [] then 0
    else if order[|order| - 1] == id then |order| - 1
    else Position(order[..|order| - 1], id)
  }

  lemma {:induction false} PositionAt(order: seq<string>, i: nat)
    requires NoDuplicates(order) && i < |order|
    ensures Position(order, order[i]) == i
    decreases |order|
  {
    if i < |order| - 1 {
      PositionAt(order[..|order| - 1], i);
    }
  }

  /** a stands before b: a higher score, or the same score and an earlier place. */
  predicate Before(players: Players, order: seq<string>, a: string, b: string) {
    var sa, sb := ScoreIn(players, a), ScoreIn(players, b);
    if sa != sb then sa > sb else Position(order, a) < Position(order, b)
  }

  lemma BeforeIsTotal(players: Players, order: seq<string>, a: string, b: string)
    requires NoDuplicates(order) && a in order && b in order && a != b
    ensures Before(players, order, a, b) <==> !Before(players, order, b, a)
  {
    var i :| 0 <= i < |order| && order[i] == a;
    var j :| 0 <= j < |order| && order[j] == b;
    PositionAt(order, i);
    PositionAt(order, j);
  }

  ghost predicate Sorted(players: Players, order: seq<string>, ids: seq<string>) {
    forall i, j :: 0 <= i < j < |ids| ==> Before(players, order, ids[i], ids[j])
  }

  /** ids lists the players in join order `order`, best first. */
  ghost predicate IsRanking(players: Players, order: seq<string>, ids: seq<string>) {
    NoDuplicates(ids) && Elements(ids) == Elements(order) && Sorted(players, order, ids)
  }

  // --- the ranking as a function ---

  /** Puts x into a ranked list, from the back, past every id it stands before. */
  function Insert(players: Players, order: seq<string>, ids: seq<string>, x: string): seq<string> {
    if ids == [] then [x]
    else
      var last := ids[|ids| - 1];
      if Before(players, order, x, last) then Insert(players, order, ids[..|ids| - 1], x) + [last]
      else ids + [x]
  }

  function RankedUpTo(players: Players, order: seq<string>, n: nat): seq<string>
    requires n <= |order|
  {
    if n == 0 then [] else Insert(players, order, RankedUpTo(players, order, n - 1), order[n - 1])
  }

  function Ranked(players: Players, order: seq<string>): seq<string> {
    RankedUpTo(players, order, |order|)
  }

  lemma AppendKeepsRanking(players: Players, order: seq<string>, ids: seq<string>, x: string)
    requires NoDuplicates(ids) && Sorted(players, order, ids)
    requires forall id :: id in ids ==> id != x && Before(players, order, id, x)
    ensures NoDuplicates(ids + [x]) && Sorted(players, order, ids + [x])
    ensures Elements(ids + [x]) == Elements(ids) + {x}
  {
    forall i | 0 <= i < |ids| ensures ids[i] != x && Before(players, order, ids[i], x) {
      assert ids[i] in ids;
    }
    forall id ensures id in ids + [x] <==> id in ids || id == x {
    }
  }

  lemma {:induction false} InsertKeepsRanking(players: Players, order: seq<string>, ids: seq<string>, x: string)
    requires NoDuplicates(order) && x in order && x !in ids
    requires forall id :: id in ids ==> id in order
    requires NoDuplicates(ids) && Sorted(players, order, ids)
    ensures var after := Insert(players, order, ids, x);
            && NoDuplicates(after) && Sorted(players, order, after)
            && |after| == |ids| + 1 && Elements(after) == Elements(ids) + {x}
    decreases |ids|
  {
    if ids != [] {
      var init, last := ids[..|ids| - 1], ids[|ids| - 1];
      assert ids == init + [last];
      assert Elements(ids) == Elements(init) + {last};
      BeforeIsTotal(players, order, x, last);
      if Before(players, order, x, last) {
        InsertKeepsRanking(players, order, init, x);
        var shorter := Insert(players, order, init, x);
        forall id | id in shorter ensures id != last && Before(players, order, id, last) {
          assert id in Elements(shorter);
        }
        AppendKeepsRanking(players, order, shorter, last);
      } else {
        forall id | id in ids ensures id != x && Before(players, order, id, x) {
          assert id != last ==> Before(players, order, id, last);
        }
        AppendKeepsRanking(players, order, ids, x);
      }
    }
  }

  lemma {:induction false} RankedUpToRanks(players: Players, order: seq<string>, n: nat)
    requires NoDuplicates(order) && n <= |order|
    ensures var ids := RankedUpTo(players, order, n);
            |ids| == n && NoDuplicates(ids) && Sorted(players, order, ids) && Elements(ids) == Elements(order[..n])
    decreases n
  {
    if n > 0 {
      RankedUpToRanks(players, order, n - 1);
      var ids := RankedUpTo(players, order, n - 1);
      assert order[..n] == order[..n - 1] + [order[n - 1]];
      assert Elements(order[..n]) == Elements(order[..n - 1]) + {order[n - 1]};
      forall id | id in ids ensures id in order && id != order[n - 1] {
        assert id in Elements(order[..n - 1]);
      }
      InsertKeepsRanking(players, order, ids, order[n - 1]);
    }
  }

  lemma RankedIsRanking(players: Players, order: seq<string>)
    requires NoDuplicates(order)
    ensures IsRanking(players, order, Ranked(players, order)) && |Ranked(players, order)| == |order|
  {
    RankedUpToRanks(players, order, |order|);
    assert order[..|order|] == order;
  }

  // --- places and their uniqueness ---

  /** The players who stand before id. */
  ghost function Ahead(players: Players, order: seq<string>, id: string): set<string> {
    set q | q in order && Before(players, order, q, id)
  }

  /** A player's place in a ranking is the number of players ahead. */
  lemma PlaceIsAhead(players: Players, order: seq<string>, ids: seq<string>, k: nat)
    requires NoDuplicates(order) && IsRanking(players, order, ids) && k < |ids|
    ensures k == |Ahead(players, order, ids[k])|
  {
    var front := ids[..k];
    forall q ensures q in Elements(front) <==> q in Ahead(players, order, ids[k]) {
      assert q in Elements(ids) <==> q in Elements(order);
      if q in Ahead(players, order, ids[k]) {
        var i :| 0 <= i < |ids| && ids[i] == q;
        assert ids[k] in Elements(order);
        if q != ids[k] {
          BeforeIsTotal(players, order, q, ids[k]);
        }
        assert i < k;
      }
    }
    assert Elements(front) == Ahead(players, order, ids[k]);
    DistinctCount(front);
  }

  /** There is only one ranking. */
  lemma RankingUnique(players: Players, order: seq<string>, ids: seq<string>)
    requires NoDuplicates(order) && IsRanking(players, order, ids)
    ensures ids == Ranked(players, order)
  {
    var ranked := Ranked(players, order);
    RankedIsRanking(players, order);
    DistinctCount(ids);
    DistinctCount(ranked);
    forall k | 0 <= k < |ids| ensures ids[k] == ranked[k] {
      assert ids[k] in Elements(ranked);
      var m :| 0 <= m < |ranked| && ranked[m] == ids[k];
      PlaceIsAhead(players, order, ids, k);
      PlaceIsAhead(players, order, ranked, m);
    }
  }

  /** The leader of a race: the first of the ranking, or "" in an empty room. */
  function Leader(players: Players, order: seq<string>): string {
    var ids := Ranked(players, order);
    if ids == [] then "" else ids[0]
  }

  /** The leader is the earliest joiner among the top scorers. */
  lemma LeaderIsEarliestTopScorer(players: Players, order: seq<string>, id: string)
    requires NoDuplicates(order) && id in order
    ensures Leader(players, order) in order
    ensures ScoreIn(players, id) <= ScoreIn(players, Leader(players, order))
    ensures ScoreIn(players, id) == ScoreIn(players, Leader(players, order))
        ==> Position(order, Leader(players, order)) <= Position(order, id)
  {
    var ids := Ranked(players, order);
    RankedIsRanking(players, order);
    assert id in Elements(ids);
    var k :| 0 <= k < |ids| && ids[k] == id;
    assert ids[0] in Elements(order);
    assert k > 0 ==> Before(players, order, ids[0], ids[k]);
  }

  /** Points gained by one player never cost that player a place. */
  lemma GainKeepsPlace(players: Players, players': Players, order: seq<string>, id: string, k: nat, k': nat)
    requires NoDuplicates(order)
    requires forall q :: q in order && q != id ==> ScoreIn(players', q) == ScoreIn(players, q)
    requires ScoreIn(players, id) <= ScoreIn(players', id)
    requires k < |order| && |Ranked(players, order)| == |order| && Ranked(players, order)[k] == id
    requires k' < |order| && |Ranked(players', order)| == |order| && Ranked(players', order)[k'] == id
    ensures k' <= k
  {
    RankedIsRanking(players, order);
    RankedIsRanking(players', order);
    PlaceIsAhead(players, order, Ranked(players, order), k);
    PlaceIsAhead(players', order, Ranked(players', order), k');
    SubsetCount(Ahead(players', order, id), Ahead(players, order, id));
  }

  // --- the sort itself ---

  ghost predicate Positions(pos: map<string, nat>, order: seq<string>) {
    pos.Keys == Elements(order) && forall id :: id in pos ==> pos[id] == Position(order, id)
  }

  method JoinPositions(order: seq<string>) returns (pos: map<string, nat>)
    ensures Positions(pos, order)
  {
    pos := map[];
    for i := 0 to |order|
      invariant Positions(pos, order[..i])
    {
      assert order[..i + 1] == order[..i] + [order[i]];
      assert Elements(order[..i + 1]) == Elements(order[..i]) + {order[i]};
      pos := pos[order[i] := i];
    }
    assert order[..|order|] == order;
  }

  /** The comparison that the standings are sorted by. */
  predicate Less(players: Players, pos: map<string, nat>, a: string, b: string)
    requires a in pos && b in pos
  {
    var sa, sb := ScoreIn(players, a), ScoreIn(players, b);
    if sa != sb then sa > sb else pos[a] < pos[b]
  }

  /** The array while x is on its way down from the end of `front` to the place j. */
  ghost function Sifted(front: seq<string>, x: string, rest: seq<string>, j: nat): seq<string>
    requires j <= |front|
  {
    front[..j] + [x] + front[j..] + rest
  }

  lemma SiftedSwap(front: seq<string>, x: string, rest: seq<string>, j: nat)
    requires 0 < j <= |front|
    ensures var s := Sifted(front, x, rest, j);
            && s[j] == x && s[j - 1] == front[j - 1]
            && s[j := front[j - 1]][j - 1 := x] == Sifted(front, x, rest, j - 1)
  {
    var s := Sifted(front, x, rest, j);
    assert front[j - 1..] == [front[j - 1]] + front[j..];
    assert front[..j] == front[..j - 1] + [front[j - 1]];
  }

  /** Inserting x into the whole front comes down to inserting it into its first j ids. */
  ghost predicate DownTo(players: Players, order: seq<string>, front: seq<string>, x: string, j: nat)
    requires j <= |front|
  {
    Insert(players, order, front, x) == Insert(players, order, front[..j], x) + front[j..]
  }

  lemma DownToNext(players: Players, order: seq<string>, front: seq<string>, x: string, j: nat)
    requires 0 < j <= |front| && DownTo(players, order, front, x, j)
    requires Before(players, order, x, front[j - 1])
    ensures DownTo(players, order, front, x, j - 1)
  {
    assert front[..j][..j - 1] == front[..j - 1];
    assert front[j - 1..] == [front[j - 1]] + front[j..];
  }

  lemma DownToEnd(players: Players, order: seq<string>, front: seq<string>, x: string, rest: seq<string>, j: nat)
    requires j <= |front| && DownTo(players, order, front, x, j)
    requires j == 0 || !Before(players, order, x, front[j - 1])
    ensures Sifted(front, x, rest, j) == Insert(players, order, front, x) + rest
  {
    if j > 0 {
      assert front[..j] != [];
      assert Insert(players, order, front[..j], x) == front[..j] + [x];
    }
  }

  /** One round of the insertion sort: the i-th id is swapped down past every id it beats. */
  method SiftDown(players: Players, pos: map<string, nat>, ids: seq<string>, i: nat, ghost order: seq<string>)
    returns (out: seq<string>)
    requires Positions(pos, order) && i < |ids|
    requires forall id :: id in ids ==> id in pos
    ensures out == Insert(players, order, ids[..i], ids[i]) + ids[i + 1..]
  {
    ghost var front, x, rest := ids[..i], ids[i], ids[i + 1..];
    var j := i;
    out := ids;
    assert front[..i] == front && front[i..] == [];
    while j > 0 && Less(players, pos, out[j], out[j - 1])
      invariant 0 <= j <= i && out == Sifted(front, x, rest, j)
      invariant forall id :: id in out ==> id in pos
      invariant DownTo(players, order, front, x, j)
    {
      SiftedSwap(front, x, rest, j);
      DownToNext(players, order, front, x, j);
      SwapKeeps(out, j - 1, j);
      out := out[j := out[j - 1]][j - 1 := out[j]];
      j := j - 1;
    }
    if j > 0 {
      SiftedSwap(front, x, rest, j);
    }
    DownToEnd(players, order, front, x, rest, j);
  }

  lemma SwapKeeps(ids: seq<string>, a: nat, b: nat)
    requires a < |ids| && b < |ids|
    ensures forall id :: id in ids[b := ids[a]][a := ids[b]] ==> id in ids
  {
  }

  /** The player ids, best first. */
  method RankIds(players: Players, order: seq<string>) returns (ids: seq<string>)
    ensures ids == Ranked(players, order)
  {
    ids := order;
    var pos := JoinPositions(order);
    for i := 0 to |order|
      invariant ids == RankedUpTo(players, order, i) + order[i..]
      invariant |ids| == |order| && forall id :: id in ids ==> id in pos
    {
      RankedSplit(players, order, i);
      ids := SiftDown(players, pos, ids, i, order);
    }
  }

  lemma {:induction false} RankedUpToLength(players: Players, order: seq<string>, n: nat)
    requires n <= |order|
    ensures |RankedUpTo(players, order, n)| == n
    ensures forall id :: id in RankedUpTo(players, order, n) ==> id in order
    decreases n
  {
    if n > 0 {
      RankedUpToLength(players, order, n - 1);
      InsertAdds(players, order, RankedUpTo(players, order, n - 1), order[n - 1]);
    }
  }

  lemma RankedSplit(players: Players, order: seq<string>, i: nat)
    requires i < |order|
    ensures var front, ids := RankedUpTo(players, order, i), RankedUpTo(players, order, i) + order[i..];
            && |front| == i && |ids| == |order|
            && ids[..i] == front && ids[i] == order[i] && ids[i + 1..] == order[i + 1..]
    ensures var next := RankedUpTo(players, order, i + 1) + order[i + 1..];
            |next| == |order| && forall id :: id in next ==> id in order
  {
    RankedUpToLength(players, order, i);
    RankedUpToLength(players, order, i + 1);
  }

  lemma {:induction false} InsertAdds(players: Players, order: seq<string>, ids: seq<string>, x: string)
    ensures |Insert(players, order, ids, x)| == |ids| + 1
    ensures forall id :: id in Insert(players, order, ids, x) <==> id in ids || id == x
    decreases |ids|
  {
    if ids != [] {
      assert ids == ids[..|ids| - 1] + [ids[|ids| - 1]];
      InsertAdds(players, order, ids[..|ids| - 1], x);
    }
  }
}
