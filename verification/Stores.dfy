/** The live store: daily rounds as objects, and the persisted tables they share. */
module Stores {
  import opened Options
  import opened Seqs
  import opened DailyState
  import opened StoreState

  /** The persisted tables, with the conflict rules of the two upserts. */
  class Database {
    var rounds: map<string, RoundRow>
    var rows: map<(string, string), Submission>

    constructor ()
      ensures State() == Db(map[], map[])
    {
      rounds, rows := map[], map[];
    }

    function State(): Db
      reads this
    {
      Db(rounds, rows)
    }

    method UpsertDailyRound(date: string, letters: string, paid: bool, roundId: string, endTime: int)
      modifies this
      ensures State() == UpsertRound(old(State()), date, RoundRow(letters, paid, roundId, endTime))
    {
      var kept := if date in rounds then rounds[date].letters else letters;
      rounds := rounds[date := RoundRow(kept, paid, roundId, endTime)];
    }

    method UpsertSubmission(date: string, sub: Submission)
      modifies this
      ensures State() == StoreState.UpsertSubmission(old(State()), date, sub)
    {
      if (date, sub.address) !in rows || rows[(date, sub.address)].score < sub.score {
        rows := rows[(date, sub.address) := sub];
      }
    }

    /** The date's rows, in no particular order. */
    method LoadSubmissions(date: string) returns (loaded: seq<Submission>)
      requires RowsKeyed(State())
      ensures Loads(State(), date, loaded)
    {
      var found := set k | k in rows && k.0 == date :: rows[k];
      loaded := Listed(found);
      forall sub ensures sub in loaded <==> IsRow(State(), date, sub) {
        assert sub in loaded <==> sub in Elements(loaded);
        if IsRow(State(), date, sub) {
          assert (date, sub.address) in rows;
        }
        if sub in found {
          var k :| k in rows && k.0 == date && rows[k] == sub;
          assert k == (k.0, k.1);
        }
      }
    }
  }

  /** The lower-casing of an address: A-Z letters are moved down in a copy of the bytes. */
  method LowerCopy(s: string) returns (lowered: string)
    ensures lowered == Lower(s)
  {
    var b := new char[|s|](i requires 0 <= i < |s| => s[i]);
    for i := 0 to b.Length
      invariant forall j :: 0 <= j < i ==> b[j] == LowerChar(s[j])
      invariant forall j :: i <= j < b.Length ==> b[j] == s[j]
    {
      if 'A' <= b[i] <= 'Z' {
        b[i] := (b[i] as int + 32) as char;
      }
    }
    return b[..];
  }

  /** One day's round. */
  class DailyRound {
    const dateKey: string
    const persist: Database?
    var letters: string
    var paid: bool
    var roundId: string
    var endTime: int
    var submissions: Bests

    constructor (dateKey: string, persist: Database?, d: Daily)
      ensures this.dateKey == dateKey && this.persist == persist && State() == d
    {
      this.dateKey, this.persist := dateKey, persist;
      letters, paid, roundId, endTime, submissions := d.letters, d.paid, d.roundId, d.endTime, d.submissions;
    }

    function State(): Daily
      reads this
    {
      Daily(letters, paid, roundId, endTime, submissions)
    }

    method MarkPaid(roundId: string, endTime: int)
      modifies this`paid, this`roundId, this`endTime
      ensures State() == old(State()).(paid := true, roundId := roundId, endTime := endTime)
    {
      paid, this.roundId, this.endTime := true, roundId, endTime;
    }

    /** Records a result if it beats the player's best, in memory and in the database. */
    method Submit(sub: Submission)
      modifies this`submissions, persist
      ensures State() == old(State()).(submissions := Recorded(old(submissions), sub))
      ensures persist != null ==>
                persist.State() == if old(Improves(submissions, sub))
                                   then StoreState.UpsertSubmission(old(persist.State()), dateKey, sub)
                                   else old(persist.State())
    {
      var key := LowerCopy(sub.address);
      if key in submissions && submissions[key].score >= sub.score {
        return;
      }
      submissions := submissions[key := sub];
      if persist != null {
        persist.UpsertSubmission(dateKey, sub);
      }
    }

    /** The standings: the players' bests collected in no particular order, sorted, and ranked.
        The sort is not stable, so ties on score and time may come out either way. */
    method Leaderboard() returns (board: seq<Entry>)
      ensures IsLeaderboard(submissions, board)
    {
      var keys := Standings(submissions);
      board := [];
      for i := 0 to |keys|
        invariant |board| == i
        invariant forall j :: 0 <= j < i ==>
                    var s := submissions[keys[j]];
                    board[j] == Entry(j + 1, s.address, s.score, s.words)
      {
        var s := submissions[keys[i]];
        board := board + [Entry(i + 1, s.address, s.score, s.words)];
      }
      assert ListsAs(submissions, keys, board);
    }
  }

  /** The players, best first. */
  method Standings(bests: Bests) returns (keys: seq<string>)
    ensures NoDuplicates(keys) && Elements(keys) == bests.Keys
    ensures (forall k :: k in keys ==> k in bests) && InOrder(bests, keys)
  {
    var unsorted := Listed(bests.Keys);
    assert forall k :: k in unsorted <==> k in Elements(unsorted);
    keys := [];
    for i := 0 to |unsorted|
      invariant NoDuplicates(keys) && Elements(keys) == Elements(unsorted[..i])
      invariant (forall k :: k in keys ==> k in bests) && InOrder(bests, keys)
    {
      assert unsorted[..i + 1] == unsorted[..i] + [unsorted[i]];
      assert Elements(unsorted[..i + 1]) == Elements(unsorted[..i]) + {unsorted[i]};
      assert unsorted[i] !in Elements(unsorted[..i]);
      keys := Placed(bests, keys, unsorted[i]);
    }
    assert unsorted[..|unsorted|] == unsorted;
  }

  /** Puts a player into sorted standings, behind everyone who is not beaten. */
  method Placed(bests: Bests, keys: seq<string>, x: string) returns (out: seq<string>)
    requires NoDuplicates(keys) && x !in keys && x in bests
    requires (forall k :: k in keys ==> k in bests) && InOrder(bests, keys)
    ensures NoDuplicates(out) && Elements(out) == Elements(keys) + {x}
    ensures (forall k :: k in out ==> k in bests) && InOrder(bests, out)
  {
    var p := |keys|;
    while p > 0 && Less(bests[x], bests[keys[p - 1]])
      invariant 0 <= p <= |keys|
      invariant forall b :: p <= b < |keys| ==> Less(bests[x], bests[keys[b]])
    {
      p := p - 1;
    }
    out := keys[..p] + [x] + keys[p..];
    forall a | 0 <= a < p ensures !Less(bests[x], bests[keys[a]]) {
      assert a == p - 1 || !Less(bests[keys[p - 1]], bests[keys[a]]);
    }
    forall k ensures k in out <==> k in keys || k == x {
      if k in keys {
        var i :| 0 <= i < |keys| && keys[i] == k;
        assert out[if i < p then i else i + 1] == k;
      }
    }
  }

  /** All rounds that this process has touched. */
  class LiveStore {
    const persist: Database?
    var dailies: map<string, DailyRound>

    /** Each round is filed under its own date and shares the store's database. */
    ghost predicate Valid()
      reads this
    {
      && (forall date :: date in dailies ==> dailies[date].dateKey == date && dailies[date].persist == persist)
      && forall a, b :: a in dailies && b in dailies && dailies[a] == dailies[b] ==> a == b
    }

    ghost function Dailies(): map<string, Daily>
      reads this`dailies, dailies.Values
    {
      map date | date in dailies :: dailies[date].State()
    }

    ghost function State(): Store
      reads this, dailies.Values, persist
    {
      Store(Dailies(), if persist == null then None else Some(persist.State()))
    }

    /** A store as the process starts with it: nothing in memory. */
    constructor (persist: Database?)
      ensures Valid() && this.persist == persist && dailies == map[]
      ensures State() == Restarted(State())
    {
      this.persist := persist;
      dailies := map[];
    }

    /** Puts a round that this process did not have yet into the table. */
    method Adopt(date: string, round: Daily) returns (d: DailyRound)
      requires Valid() && date !in dailies
      modifies this`dailies
      ensures Valid() && fresh(d) && dailies == old(dailies)[date := d]
      ensures Dailies() == old(Dailies())[date := round]
    {
      d := new DailyRound(date, persist, round);
      dailies := dailies[date := d];
    }

    /** Reads a date back from the database if it has a round for it, or makes it new. */
    method Load(date: string, generated: string) returns (round: Daily, ghost loaded: seq<Submission>)
      requires persist != null ==> RowsKeyed(persist.State())
      ensures persist != null && date in persist.rounds ==> Loads(persist.State(), date, loaded)
      ensures round == Recover(if persist == null then None else Some(persist.State()), date, loaded, generated)
    {
      round, loaded := Daily("", false, "", ZERO_TIME, map[]), [];
      if persist != null && date in persist.rounds {
        var row := persist.rounds[date];
        var rows := persist.LoadSubmissions(date);
        var bests := Filed(rows);
        round, loaded := Daily(row.letters, row.paid, row.roundId, row.endTime, bests), rows;
      }
      if round.letters == "" {
        round := round.(letters := generated);
      }
    }

    /** The date's round, recovered from the database or made new on the first touch. `loaded` is
        what the load returned. */
    method GetOrCreateDaily(date: string, generated: string) returns (d: DailyRound, ghost loaded: seq<Submission>)
      requires Valid() && (persist != null ==> RowsKeyed(persist.State()))
      modifies this`dailies
      ensures Valid() && date in dailies && d == dailies[date]
      ensures old(date !in dailies) && persist != null && date in persist.rounds
          ==> Loads(persist.State(), date, loaded)
      ensures State() == GetOrCreated(old(State()), date, loaded, generated)
    {
      if date in dailies {
        return dailies[date], [];
      }
      var round;
      round, loaded := Load(date, generated);
      d := Adopt(date, round);
    }

    /** Registers the date's paid round. */
    method OpenPaidDaily(date: string, roundId: string, endTime: int, letters: string) returns (d: DailyRound)
      requires Valid()
      modifies this`dailies, dailies.Values, persist
      ensures Valid() && date in dailies && d == dailies[date]
      ensures State() == Opened(old(State()), date, roundId, endTime, letters)
    {
      Register(date, roundId, endTime, letters);
      d := dailies[date];
      assert d.State() == Dailies()[date];
      WriteRound(date, d.letters, roundId, endTime);
    }

    /** The part of opening a round that happens in memory. */
    method Register(date: string, roundId: string, endTime: int, letters: string)
      requires Valid()
      modifies this`dailies, dailies.Values
      ensures Valid() && date in dailies
      ensures Dailies() == Opened(Store(old(Dailies()), None), date, roundId, endTime, letters).dailies
    {
      ghost var before := Dailies();
      if date !in dailies {
        var d := Adopt(date, Daily(letters, false, "", ZERO_TIME, map[]));
      }
      ghost var round := if date in before then before[date] else Daily(letters, false, "", ZERO_TIME, map[]);
      assert Dailies() == before[date := round];
      MarkPaid(date, roundId, endTime);
    }

    /** Writes a paid round through to the database, if there is one. */
    method WriteRound(date: string, letters: string, roundId: string, endTime: int)
      modifies persist
      ensures Dailies() == old(Dailies())
      ensures persist != null ==>
                persist.State() == UpsertRound(old(persist.State()), date, RoundRow(letters, true, roundId, endTime))
    {
      if persist != null {
        persist.UpsertDailyRound(date, letters, true, roundId, endTime);
      }
    }

    /** A result handed to the date's round, as the submission handler does it. */
    method SubmitTo(date: string, sub: Submission)
      requires Valid() && date in dailies
      modifies dailies[date], persist
      ensures Valid() && dailies == old(dailies)
      ensures State() == Submitted(old(State()), date, sub)
    {
      dailies[date].Submit(sub);
      assert Dailies() == old(Dailies())[date := dailies[date].State()];
    }

    method MarkPaid(date: string, roundId: string, endTime: int)
      requires Valid() && date in dailies
      modifies dailies[date]
      ensures Valid()
      ensures var round := old(Dailies())[date].(paid := true, roundId := roundId, endTime := endTime);
              Dailies() == old(Dailies())[date := round]
    {
      dailies[date].MarkPaid(roundId, endTime);
      assert Dailies() == old(Dailies())[date := dailies[date].State()];
    }
  }

  /** Files loaded rows under their lower-cased addresses. */
  method Filed(loaded: seq<Submission>) returns (bests: Bests)
    ensures bests == ByKey(loaded)
  {
    bests := map[];
    for i := 0 to |loaded|
      invariant bests == ByKey(loaded[..i])
    {
      assert loaded[..i + 1][..i] == loaded[..i];
      var key := LowerCopy(loaded[i].address);
      bests := bests[key := loaded[i]];
    }
    assert loaded[..|loaded|] == loaded;
  }
}
