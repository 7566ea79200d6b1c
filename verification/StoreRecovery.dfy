/** What a restart gives back: the exact condition, the runs that meet it, and inputs that do not. */
module StoreRecovery {
  import opened Options
  import opened Seqs
  import opened DailyState
  import opened StoreState
  import opened StoreRuns

  // --- one restart, from any state ---

  /** A restart and the first touch give back the date's round, whatever order its rows load in. */
  ghost predicate LosesNothing(gen: Generator, s: Store, date: string)
    requires s.db.Some? && date in s.dailies
  {
    forall loaded :: Loads(s.db.value, date, loaded) ==>
      GetOrCreated(Restarted(s), date, loaded, gen(date)).dailies[date] == s.dailies[date]
  }

  /** Everything but the submissions is in the round's row; empty letters are generated again. */
  ghost predicate RoundComesBack(gen: Generator, row: RoundRow, date: string, d: Daily) {
    && d.letters == (if row.letters == "" then gen(date) else row.letters)
    && d.paid == row.paid && d.roundId == row.roundId && d.endTime == row.endTime
  }

  ghost function RowsOf(db: Db, date: string): set<Submission> {
    set k | k in db.rows && k.0 == date :: db.rows[k]
  }

  lemma RowsOfAreRows(db: Db, date: string, sub: Submission)
    requires RowsKeyed(db)
    ensures sub in RowsOf(db, date) <==> IsRow(db, date, sub)
  {
    if IsRow(db, date, sub) {
      assert (date, sub.address) in db.rows;
    }
    if sub in RowsOf(db, date) {
      var k :| k in db.rows && k.0 == date && db.rows[k] == sub;
      assert k == (k.0, k.1);
    }
  }

  lemma SomeLoad(db: Db, date: string) returns (loaded: seq<Submission>)
    requires RowsKeyed(db)
    ensures Loads(db, date, loaded)
  {
    loaded := Enumerated(RowsOf(db, date));
    forall sub ensures sub in loaded <==> IsRow(db, date, sub) {
      assert sub in loaded <==> sub in Elements(loaded);
      RowsOfAreRows(db, date, sub);
    }
  }

  /** Any row may be the one that loads last. */
  lemma RowLoadedLast(db: Db, date: string, row: Submission) returns (loaded: seq<Submission>)
    requires RowsKeyed(db) && IsRow(db, date, row)
    ensures Loads(db, date, loaded) && loaded != [] && loaded[|loaded| - 1] == row
  {
    var others := Enumerated(RowsOf(db, date) - {row});
    assert row !in Elements(others);
    loaded := others + [row];
    forall sub ensures sub in loaded <==> IsRow(db, date, sub) {
      assert sub in others <==> sub in Elements(others);
      RowsOfAreRows(db, date, sub);
    }
  }

  /** Rows that are the bests load as the bests. */
  lemma SameSubmissionsLoad(db: Db, date: string, bests: Bests, loaded: seq<Submission>)
    requires RowsKeyed(db) && SameSubmissions(db, date, bests) && Loads(db, date, loaded)
    ensures ByKey(loaded) == bests
  {
    forall key ensures key in ByKey(loaded) <==> key in bests {
      ByKeyHolds(loaded, key);
      if key in bests {
        assert bests[key] in loaded;
      }
    }
    forall key | key in bests ensures ByKey(loaded)[key] == bests[key] {
      ByKeyHolds(loaded, key);
      assert IsRow(db, date, ByKey(loaded)[key]);
    }
  }

  /** The rows load as these bests, in whatever order, exactly when they are these bests, each
      player under one spelling. */
  lemma LoadsAsExactly(db: Db, date: string, bests: Bests)
    requires RowsKeyed(db)
    ensures (forall loaded :: Loads(db, date, loaded) ==> ByKey(loaded) == bests) <==> SameSubmissions(db, date, bests)
  {
    if forall loaded :: Loads(db, date, loaded) ==> ByKey(loaded) == bests {
      var some := SomeLoad(db, date);
      forall key | key in bests ensures Lower(bests[key].address) == key && IsRow(db, date, bests[key]) {
        ByKeyHolds(some, key);
      }
      forall address | (date, address) in db.rows
        ensures Lower(address) in bests && bests[Lower(address)] == db.rows[(date, address)]
      {
        var last := RowLoadedLast(db, date, db.rows[(date, address)]);
      }
    }
    if SameSubmissions(db, date, bests) {
      forall loaded | Loads(db, date, loaded) ensures ByKey(loaded) == bests {
        SameSubmissionsLoad(db, date, bests, loaded);
      }
    }
  }

  /** From any state at all, a restart loses nothing of a date exactly when the date has a round row
      that agrees with the round in memory and the date's rows are the bests in memory, each player
      under one spelling; or when it has no row and nothing but its letters to lose. */
  lemma LosesNothingExactlyWhen(gen: Generator, s: Store, date: string)
    requires s.db.Some? && RowsKeyed(s.db.value) && date in s.dailies
    ensures var db, d := s.db.value, s.dailies[date];
            LosesNothing(gen, s, date) <==>
            if date in db.rounds
            then RoundComesBack(gen, db.rounds[date], date, d) && SameSubmissions(db, date, d.submissions)
            else d == Daily(gen(date), false, "", ZERO_TIME, map[])
  {
    var db, d := s.db.value, s.dailies[date];
    var some := SomeLoad(db, date);
    LoadsAsExactly(db, date, d.submissions);
    if date in db.rounds {
      forall loaded ensures GetOrCreated(Restarted(s), date, loaded, gen(date)).dailies[date] == d <==>
                            RoundComesBack(gen, db.rounds[date], date, d) && ByKey(loaded) == d.submissions {
        assert GetOrCreated(Restarted(s), date, loaded, gen(date)).dailies[date]
            == Recover(s.db, date, loaded, gen(date));
      }
    }
  }

  /** When memory and database are in step, that comes down to: the date was opened as a paid round,
      or had no submissions to lose. */
  lemma RecoveredExactlyWhenOpened(gen: Generator, s: Store, date: string, loaded: seq<Submission>)
    requires s.db.Some? && date in s.dailies && Synced(gen, s.db.value, date, s.dailies[date])
    requires Loads(s.db.value, date, loaded)
    ensures var back := GetOrCreated(Restarted(s), date, loaded, gen(date));
            back.dailies[date] == s.dailies[date] <==>
            date in s.db.value.rounds || s.dailies[date].submissions == map[]
  {
    var db, d := s.db.value, s.dailies[date];
    SyncedIsRecoverable(gen, db, date, d);
    if Recoverable(gen, db, date) {
      LoadSyncs(gen, db, date, loaded);
      SyncedUnique(gen, db, date, d, Recover(Some(db), date, loaded, gen(date)));
    }
  }

  // --- whole runs ---

  const EMPTY_STORE := Store(map[], Some(Db(map[], map[])))

  /** An empty database is in step on every date. */
  lemma EmptyIsInStep(gen: Generator, date: string)
    ensures InStep(gen, EMPTY_STORE, date) && Persisted(EMPTY_STORE)
  {
  }

  /** From an empty store no run leaves the database behind the memory. */
  lemma NeverAheadFromEmpty(gen: Generator, es: seq<Event>)
    requires Runs(gen, EMPTY_STORE, es)
    ensures Persisted(After(gen, EMPTY_STORE, es))
  {
    EmptyIsInStep(gen, "");
    NeverAheadOfDatabase(gen, EMPTY_STORE, es);
  }

  /** The date is only ever opened with its own letters, as the handlers do it. */
  ghost predicate OwnLetters(gen: Generator, date: string, es: seq<Event>) {
    forall e :: e in es && e.Open? && e.date == date ==> e.letters == gen(date)
  }

  /** What every run with the date's own letters keeps: the round in memory is the one in the row. */
  ghost predicate RoundKept(gen: Generator, s: Store, date: string) {
    && s.db.Some?
    && (date in s.db.value.rounds ==> s.db.value.rounds[date].letters == gen(date))
    && (date in s.dailies ==> s.dailies[date].letters == gen(date) && SameRound(s.db.value, date, s.dailies[date]))
  }

  lemma RoundKeptStep(gen: Generator, s: Store, date: string, e: Event)
    requires RoundKept(gen, s, date) && Enabled(s, e) && OwnLetters(gen, date, [e])
    ensures RoundKept(gen, Step(gen, s, e), date)
  {
    assert e in [e];
  }

  lemma {:induction false} RoundKeptRun(gen: Generator, s: Store, date: string, es: seq<Event>)
    requires RoundKept(gen, s, date) && Runs(gen, s, es) && OwnLetters(gen, date, es)
    ensures RoundKept(gen, After(gen, s, es), date)
    decreases |es|
  {
    if es != [] {
      RoundKeptRun(gen, s, date, es[..|es| - 1]);
      RoundKeptStep(gen, After(gen, s, es[..|es| - 1]), date, es[|es| - 1]);
    }
  }

  lemma KeptLosesNothingExactlyWhen(gen: Generator, s: Store, date: string)
    requires RoundKept(gen, s, date) && RowsKeyed(s.db.value) && date in s.dailies
    ensures LosesNothing(gen, s, date) <==>
            if date in s.db.value.rounds then SameSubmissions(s.db.value, date, s.dailies[date].submissions)
            else s.dailies[date].submissions == map[]
  {
    LosesNothingExactlyWhen(gen, s, date);
  }

  /** After every run from an empty store that opens the date with its own letters, whatever the
      spellings and however the restarts fall, the next restart loses nothing of the date exactly
      when the date was opened and its rows are the bests in memory, or it was not and has none. */
  lemma RunsLoseNothingExactlyWhen(gen: Generator, date: string, es: seq<Event>)
    requires Runs(gen, EMPTY_STORE, es) && OwnLetters(gen, date, es)
    requires date in After(gen, EMPTY_STORE, es).dailies
    ensures var now := After(gen, EMPTY_STORE, es);
            && now.db.Some?
            && (LosesNothing(gen, now, date) <==>
                if date in now.db.value.rounds then SameSubmissions(now.db.value, date, now.dailies[date].submissions)
                else now.dailies[date].submissions == map[])
  {
    NeverAheadFromEmpty(gen, es);
    RoundKeptRun(gen, EMPTY_STORE, date, es);
    KeptLosesNothingExactlyWhen(gen, After(gen, EMPTY_STORE, es), date);
  }

  /** Which steps break it: on a date in step that is in memory and opened after the step, nothing is
      lost exactly when the step does not improve a best under a second spelling, and does not open
      the date before it was loaded while the database has submissions for it. */
  lemma StepLosesNothingExactlyWhen(gen: Generator, s: Store, date: string, e: Event)
    requires InStep(gen, s, date) && Enabled(s, e) && OwnLetters(gen, date, [e])
    requires date in Step(gen, s, e).dailies && Step(gen, s, e).db.Some? && date in Step(gen, s, e).db.value.rounds
    ensures LosesNothing(gen, Step(gen, s, e), date) <==>
            && (e.Put? && e.date == date && Improves(s.dailies[date].submissions, e.sub) ==>
                  OneSpelling(s.dailies[date].submissions, e.sub))
            && (e.Open? && e.date == date && date !in s.dailies ==> NoRows(s, date))
  {
    var s' := Step(gen, s, e);
    assert e in [e];
    RoundKeptStep(gen, s, date, e);
    KeptLosesNothingExactlyWhen(gen, s', date);
    StepKeepsStep(gen, s, date, e);
    assert InStep(gen, s', date) <==> SameSubmissions(s'.db.value, date, s'.dailies[date].submissions);
  }

  /** After any such run, with any number of restarts in it, one more restart and the first touch
      recover the date's round and submissions as they were, exactly when the date is opened or
      empty. */
  lemma RunsRecover(gen: Generator, s: Store, date: string, es: seq<Event>, loaded: seq<Submission>)
    requires InStep(gen, s, date) && Runs(gen, s, es) && RunsDisciplined(gen, s, date, es)
    requires var now := After(gen, s, es); now.db.Some? ==> Loads(now.db.value, date, loaded)
    requires date in After(gen, s, es).dailies
    ensures var now := After(gen, s, es);
            && now.db.Some?
            && (GetOrCreated(Restarted(now), date, loaded, gen(date)).dailies[date] == now.dailies[date] <==>
                date in now.db.value.rounds || now.dailies[date].submissions == map[])
  {
    RunKeepsStep(gen, s, date, es);
    RecoveredExactlyWhenOpened(gen, After(gen, s, es), date, loaded);
  }

  /** From an empty store, after any disciplined run, restarts included, the next restart loses
      nothing of the date exactly when it is opened or has no submissions. */
  lemma DisciplinedRunsLoseNothingExactlyWhen(gen: Generator, date: string, es: seq<Event>)
    requires Runs(gen, EMPTY_STORE, es) && RunsDisciplined(gen, EMPTY_STORE, date, es)
    requires date in After(gen, EMPTY_STORE, es).dailies
    ensures var now := After(gen, EMPTY_STORE, es);
            && now.db.Some?
            && (LosesNothing(gen, now, date) <==>
                date in now.db.value.rounds || now.dailies[date].submissions == map[])
  {
    EmptyIsInStep(gen, date);
    RunKeepsStep(gen, EMPTY_STORE, date, es);
    LosesNothingExactlyWhen(gen, After(gen, EMPTY_STORE, es), date);
  }

  // --- inputs on which a restart loses something ---

  /** A date that was not opened loses its leaderboard, although its rows are in the database. */
  lemma UnopenedDateIsLost(gen: Generator, date: string, sub: Submission)
    ensures var lost := Submitted(GetOrCreated(EMPTY_STORE, date, [], gen(date)), date, sub);
            && Loads(EMPTY_STORE.db.value, date, [])
            && lost.dailies[date].submissions == map[Lower(sub.address) := sub] && IsRow(lost.db.value, date, sub)
            && !LosesNothing(gen, lost, date)
            && forall loaded ::
                 GetOrCreated(Restarted(lost), date, loaded, gen(date)).dailies[date].submissions == map[]
  {
    var lost := Submitted(GetOrCreated(EMPTY_STORE, date, [], gen(date)), date, sub);
    assert Lower(sub.address) in lost.dailies[date].submissions;
    LosesNothingExactlyWhen(gen, lost, date);
  }

  /** A date that is opened after a restart before it was loaded forgets what the database has: a
      player's 5 gives way to a 2, and comes back with the next restart. */
  lemma OpenedBeforeLoadedIsLost(gen: Generator, date: string)
    ensures var high, low := Submission("0xa", 5, 1, 0), Submission("0xa", 2, 1, 1);
            var before := Submitted(Opened(EMPTY_STORE, date, "1", 10, gen(date)), date, high);
            var lost := Submitted(Opened(Restarted(before), date, "1", 10, gen(date)), date, low);
            && lost.dailies[date].submissions == map["0xa" := low] && IsRow(lost.db.value, date, high)
            && !LosesNothing(gen, lost, date)
  {
    var high, low := Submission("0xa", 5, 1, 0), Submission("0xa", 2, 1, 1);
    var before := Submitted(Opened(EMPTY_STORE, date, "1", 10, gen(date)), date, high);
    var lost := Submitted(Opened(Restarted(before), date, "1", 10, gen(date)), date, low);
    assert Lower("0xa") == "0xa";
    assert (date, "0xa") in lost.db.value.rows;
    LosesNothingExactlyWhen(gen, lost, date);
  }

  /** The single spelling is needed: a player who first submits as "0xa" and then, better, as
      "0xA" may come back from a restart with the lower score. */
  lemma SecondSpellingMayLoseTheBest(gen: Generator, date: string)
    ensures var low, high := Submission("0xa", 3, 1, 0), Submission("0xA", 5, 1, 1);
            var afterOpen := Opened(EMPTY_STORE, date, "1", 10, gen(date));
            var lost := Submitted(Submitted(afterOpen, date, low), date, high);
            && Loads(lost.db.value, date, [high, low])
            && lost.dailies[date].submissions == map["0xa" := high]
            && (GetOrCreated(Restarted(lost), date, [high, low], gen(date)).dailies[date].submissions
                == map["0xa" := low])
            && !LosesNothing(gen, lost, date)
  {
    var low, high := Submission("0xa", 3, 1, 0), Submission("0xA", 5, 1, 1);
    assert Lower("0xa") == "0xa" && Lower("0xA") == "0xa";
    assert "0xa"[2] != "0xA"[2];
    assert [high, low][..1] == [high] && [high][..0] == [];
    assert ByKey([high]) == map["0xa" := high];
    assert ByKey([high, low]) == map["0xa" := low];
  }
}
