/** The daily rounds as values: best submissions per player, the persisted copy, and what a
    restart recovers. */
module DailyState {
  import opened Text
  import opened Options
  import opened Seqs

  function LowerChar(c: char): char {
    if 'A' <= c <= 'Z' then (c as int + 32) as char else c
  }

  function Lower(s: string): string {
    seq(|s|, i requires 0 <= i < |s| => LowerChar(s[i]))
  }

  /** Times are at the resolution of the database; ZERO_TIME is the unset time. */
  const ZERO_TIME := 0

  datatype Submission = Submission(address: string, score: int, words: int, at: int)

  type Bests = map<string, Submission>

  datatype Daily = Daily(letters: string, paid: bool, roundId: string, endTime: int, submissions: Bests)

  // --- keeping the best ---

  predicate Improves(bests: Bests, sub: Submission) {
    Lower(sub.address) in bests ==> bests[Lower(sub.address)].score < sub.score
  }

  function Recorded(bests: Bests, sub: Submission): Bests {
    if Improves(bests, sub) then bests[Lower(sub.address) := sub] else bests
  }

  function RecordedAll(subs: seq<Submission>): Bests {
    if subs == [] then map[] else Recorded(RecordedAll(subs[..|subs| - 1]), subs[|subs| - 1])
  }

  /** The i-th submission is the player's first with the player's highest score. */
  ghost predicate FirstBest(subs: seq<Submission>, key: string, i: nat) {
    && i < |subs| && Lower(subs[i].address) == key
    && (forall j :: 0 <= j < |subs| && Lower(subs[j].address) == key ==> subs[j].score <= subs[i].score)
    && (forall j :: 0 <= j < i && Lower(subs[j].address) == key ==> subs[j].score < subs[i].score)
  }

  ghost predicate HasSubmitted(subs: seq<Submission>, key: string) {
    exists j :: 0 <= j < |subs| && Lower(subs[j].address) == key
  }

  /** After any submissions the store holds, for exactly the players who submitted, each player's
      first submission with that player's highest score. */
  lemma {:induction false} FirstBestIsKept(subs: seq<Submission>, key: string) returns (i: nat)
    ensures key in RecordedAll(subs) <==> HasSubmitted(subs, key)
    ensures HasSubmitted(subs, key) ==> FirstBest(subs, key, i) && RecordedAll(subs)[key] == subs[i]
    decreases |subs|
  {
    i := 0;
    if subs != [] {
      var init, last := subs[..|subs| - 1], subs[|subs| - 1];
      i := FirstBestIsKept(init, key);
      if HasSubmitted(init, key) {
        var j :| 0 <= j < |init| && Lower(init[j].address) == key;
        assert subs[j] == init[j];
      }
      if Lower(last.address) == key && (!HasSubmitted(init, key) || init[i].score < last.score) {
        i := |subs| - 1;
      }
    }
  }

  /** One player's submissions, in order. */
  function Of(subs: seq<Submission>, key: string): seq<Submission> {
    if subs == [] then []
    else
      var last := subs[|subs| - 1];
      Of(subs[..|subs| - 1], key) + if Lower(last.address) == key then [last] else []
  }

  function BestOf(bests: Bests, key: string): Option<Submission> {
    if key in bests then Some(bests[key]) else None
  }

  lemma {:induction false} OnlyOwnSubmissionsMatter(subs: seq<Submission>, key: string)
    ensures BestOf(RecordedAll(subs), key) == BestOf(RecordedAll(Of(subs, key)), key)
    decreases |subs|
  {
    if subs != [] {
      var init, last := subs[..|subs| - 1], subs[|subs| - 1];
      OnlyOwnSubmissionsMatter(init, key);
      if Lower(last.address) == key {
        assert Of(subs, key)[..|Of(init, key)|] == Of(init, key);
      } else {
        assert Of(subs, key) == Of(init, key);
      }
    }
  }

  /** How different players' submissions interleave makes no difference. */
  lemma InterleavingIrrelevant(subs: seq<Submission>, subs': seq<Submission>)
    requires forall key :: Of(subs, key) == Of(subs', key)
    ensures RecordedAll(subs) == RecordedAll(subs')
  {
    forall key ensures BestOf(RecordedAll(subs), key) == BestOf(RecordedAll(subs'), key) {
      OnlyOwnSubmissionsMatter(subs, key);
      OnlyOwnSubmissionsMatter(subs', key);
      assert Of(subs, key) == Of(subs', key);
    }
    forall key ensures key in RecordedAll(subs) <==> key in RecordedAll(subs') {
      assert BestOf(RecordedAll(subs), key) == BestOf(RecordedAll(subs'), key);
    }
    forall key | key in RecordedAll(subs) ensures RecordedAll(subs)[key] == RecordedAll(subs')[key] {
      assert BestOf(RecordedAll(subs), key) == BestOf(RecordedAll(subs'), key);
    }
  }

  // --- the leaderboard ---

  datatype Entry = Entry(rank: nat, address: string, score: int, words: int)

  /** The comparison that the leaderboard is sorted by. */
  predicate Less(a: Submission, b: Submission) {
    if a.score != b.score then a.score > b.score else a.at < b.at
  }

  /** a may stand before b: a higher score, or the same score no later. */
  ghost predicate NoWorse(a: Submission, b: Submission) {
    a.score > b.score || (a.score == b.score && a.at <= b.at)
  }

  /** a must stand before b: a higher score, or the same score earlier. */
  ghost predicate Better(a: Submission, b: Submission) {
    a.score > b.score || (a.score == b.score && a.at < b.at)
  }

  ghost predicate InOrder(bests: Bests, keys: seq<string>)
    requires forall k :: k in keys ==> k in bests
  {
    forall i, j :: 0 <= i < j < |keys| ==> NoWorse(bests[keys[i]], bests[keys[j]])
  }

  /** The rows list every player once, best first, with ranks counting from 1. */
  ghost predicate ListsAs(bests: Bests, keys: seq<string>, rows: seq<Entry>) {
    && NoDuplicates(keys) && Elements(keys) == bests.Keys
    && (forall k :: k in keys ==> k in bests) && InOrder(bests, keys)
    && |rows| == |keys|
    && (forall i :: 0 <= i < |rows| ==>
          var s := bests[keys[i]];
          rows[i] == Entry(i + 1, s.address, s.score, s.words))
  }

  ghost predicate IsLeaderboard(bests: Bests, rows: seq<Entry>) {
    exists keys :: ListsAs(bests, keys, rows)
  }

  /** A player's rank is one more than the number of players who do better, except that players
      with the same score at the same time may stand in either order. */
  lemma RankCountsTheBetter(bests: Bests, keys: seq<string>, rows: seq<Entry>, i: nat)
    requires ListsAs(bests, keys, rows) && i < |rows|
    ensures var better := set k | k in bests && Better(bests[k], bests[keys[i]]);
            var worse := set k | k in bests && Better(bests[keys[i]], bests[k]);
            |better| < rows[i].rank <= |bests| - |worse|
  {
    var better := set k | k in bests && Better(bests[k], bests[keys[i]]);
    var worse := set k | k in bests && Better(bests[keys[i]], bests[k]);
    var front, back := keys[..i], keys[i + 1..];
    forall k | k in better ensures k in Elements(front) {
      assert k in Elements(keys);
      var j :| 0 <= j < |keys| && keys[j] == k;
      assert j < i;
      assert front[j] == k;
    }
    forall k | k in worse ensures k in Elements(back) {
      assert k in Elements(keys);
      var j :| 0 <= j < |keys| && keys[j] == k;
      assert j > i;
      assert back[j - i - 1] == k;
    }
    DistinctCount(front);
    DistinctCount(back);
    DistinctCount(keys);
    SubsetCount(better, Elements(front));
    SubsetCount(worse, Elements(back));
    assert |bests| == |bests.Keys|;
  }

  /** Scores never rise down the board, and of equal scores the earlier comes first. */
  lemma BoardIsBestFirst(bests: Bests, keys: seq<string>, rows: seq<Entry>, i: nat, j: nat)
    requires ListsAs(bests, keys, rows) && i < j < |rows|
    ensures rows[i].rank < rows[j].rank && rows[i].score >= rows[j].score
    ensures rows[i].score == rows[j].score ==> bests[keys[i]].at <= bests[keys[j]].at
  {
    assert NoWorse(bests[keys[i]], bests[keys[j]]);
  }

  /** The row shows the player's first submission with the player's highest score. */
  ghost predicate ShowsFirstBest(subs: seq<Submission>, row: Entry) {
    exists i :: && 0 <= i < |subs| && FirstBest(subs, Lower(row.address), i)
                && subs[i].address == row.address && subs[i].score == row.score && subs[i].words == row.words
  }

  /** The leaderboard of any submissions shows each submitter's first best, has one row per submitter,
      and ranks from 1. */
  lemma BoardOfSubmissions(subs: seq<Submission>, rows: seq<Entry>, key: string)
    requires IsLeaderboard(RecordedAll(subs), rows)
    ensures forall i :: 0 <= i < |rows| ==> rows[i].rank == i + 1 && ShowsFirstBest(subs, rows[i])
    ensures HasSubmitted(subs, key) <==> exists i :: 0 <= i < |rows| && Lower(rows[i].address) == key
    ensures forall i, j :: 0 <= i < j < |rows| ==> Lower(rows[i].address) != Lower(rows[j].address)
  {
    var bests := RecordedAll(subs);
    var keys :| ListsAs(bests, keys, rows);
    forall i | 0 <= i < |rows|
      ensures rows[i].rank == i + 1 && ShowsFirstBest(subs, rows[i]) && Lower(rows[i].address) == keys[i]
    {
      var k := FirstBestIsKept(subs, keys[i]);
      assert keys[i] in keys;
    }
    var k := FirstBestIsKept(subs, key);
    assert key in bests <==> key in Elements(keys);
    if HasSubmitted(subs, key) {
      var i :| 0 <= i < |keys| && keys[i] == key;
      assert Lower(rows[i].address) == key;
    }
  }

  // --- addresses ---

  /** Two addresses are filed as one player exactly when they differ in the case of letters only. */
  lemma OnePlayerExactlyWhen(a: string, b: string)
    ensures Lower(a) == Lower(b) <==>
            |a| == |b| && forall i :: 0 <= i < |a| ==> SameLetter(a[i], b[i])
  {
    if Lower(a) == Lower(b) {
      forall i | 0 <= i < |a| ensures SameLetter(a[i], b[i]) {
        assert Lower(a)[i] == LowerChar(a[i]) && Lower(b)[i] == LowerChar(b[i]);
      }
    }
  }
}
