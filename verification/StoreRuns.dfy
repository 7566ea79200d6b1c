/** Whole runs of the store, over restarts: what the database never falls behind on, and when a
    restart gives back what it took. */
module StoreRuns {
  import opened Options
  import opened DailyState
  import opened StoreState

  datatype Event =
    | Get(date: string, loaded: seq<Submission>)
    | Open(date: string, roundId: string, endTime: int, letters: string)
    | Put(date: string, sub: Submission)
    | Restart

  /** The letters of a date are a function of the date alone. */
  type Generator = string -> string

  ghost predicate Enabled(s: Store, e: Event) {
    match e
    case Get(date, loaded) => s.db.Some? ==> Loads(s.db.value, date, loaded)
    case Open(_, _, _, _) => true
    case Put(date, _) => date in s.dailies
    case Restart => true
  }

  ghost function Step(gen: Generator, s: Store, e: Event): Store
    requires Enabled(s, e)
  {
    match e
    case Get(date, loaded) => GetOrCreated(s, date, loaded, gen(date))
    case Open(date, roundId, endTime, letters) => Opened(s, date, roundId, endTime, letters)
    case Put(date, sub) => Submitted(s, date, sub)
    case Restart => Restarted(s)
  }

  ghost predicate Runs(gen: Generator, s: Store, es: seq<Event>)
    decreases |es|, 0
  {
    es == [] || (Runs(gen, s, es[..|es| - 1]) && Enabled(After(gen, s, es[..|es| - 1]), es[|es| - 1]))
  }

  ghost function After(gen: Generator, s: Store, es: seq<Event>): Store
    requires Runs(gen, s, es)
    decreases |es|, 1
  {
    if es == [] then s else Step(gen, After(gen, s, es[..|es| - 1]), es[|es| - 1])
  }

  // --- the database never falls behind ---

  /** Every best in memory is filed under its own lower-cased address, and the database has a row
      for its exact address with at least its score. */
  ghost predicate Persisted(s: Store) {
    && s.db.Some? && RowsKeyed(s.db.value)
    && forall date, key :: date in s.dailies && key in s.dailies[date].submissions ==>
         Backed(s.db.value, date, key, s.dailies[date].submissions[key])
  }

  ghost predicate Backed(db: Db, date: string, key: string, sub: Submission) {
    && Lower(sub.address) == key
    && (date, sub.address) in db.rows && sub.score <= db.rows[(date, sub.address)].score
  }

  lemma UpsertKeepsBacked(db: Db, on: string, put: Submission, date: string, key: string, sub: Submission)
    requires Backed(db, date, key, sub)
    ensures Backed(UpsertSubmission(db, on, put), date, key, sub)
  {
  }

  lemma PersistedStep(gen: Generator, s: Store, e: Event)
    requires Persisted(s) && Enabled(s, e)
    ensures Persisted(Step(gen, s, e))
  {
    var s' := Step(gen, s, e);
    var db := s.db.value;
    forall date, key | date in s'.dailies && key in s'.dailies[date].submissions
      ensures Backed(s'.db.value, date, key, s'.dailies[date].submissions[key])
    {
      match e
      case Get(on, loaded) =>
        if on !in s.dailies && date == on {
          ByKeyHolds(loaded, key);
          assert IsRow(db, date, ByKey(loaded)[key]);
        }
      case Open(on, _, _, _) =>
      case Put(on, sub) =>
        if date != on || key != Lower(sub.address) || !Improves(s.dailies[on].submissions, sub) {
          UpsertKeepsBacked(db, on, sub, date, key, s.dailies[date].submissions[key]);
        }
      case Restart =>
    }
  }

  /** After any opens, submissions and restarts, with writes that succeed, no best in memory is
      ahead of the database. */
  lemma {:induction false} NeverAheadOfDatabase(gen: Generator, s: Store, es: seq<Event>)
    requires Persisted(s) && Runs(gen, s, es)
    ensures Persisted(After(gen, s, es))
    decreases |es|
  {
    if es != [] {
      NeverAheadOfDatabase(gen, s, es[..|es| - 1]);
      PersistedStep(gen, After(gen, s, es[..|es| - 1]), es[|es| - 1]);
    }
  }

  // --- what the database never gives up ---

  /** Rounds keep their letters, and a row is only ever replaced by one with a higher score. */
  ghost predicate Grows(db: Db, db': Db) {
    && (forall date :: date in db.rounds ==> date in db'.rounds && db'.rounds[date].letters == db.rounds[date].letters)
    && (forall k :: k in db.rows ==>
          k in db'.rows && (db'.rows[k] == db.rows[k] || db'.rows[k].score > db.rows[k].score))
  }

  lemma GrowsStep(gen: Generator, s: Store, e: Event)
    requires s.db.Some? && Enabled(s, e)
    ensures Step(gen, s, e).db.Some? && Grows(s.db.value, Step(gen, s, e).db.value)
  {
  }

  /** Over every run the persisted letters stay and the persisted scores never fall; a row that is not
      beaten stays as it was first written. */
  lemma {:induction false} DatabaseGrows(gen: Generator, s: Store, es: seq<Event>)
    requires s.db.Some? && Runs(gen, s, es)
    ensures After(gen, s, es).db.Some? && Grows(s.db.value, After(gen, s, es).db.value)
    decreases |es|
  {
    if es != [] {
      DatabaseGrows(gen, s, es[..|es| - 1]);
      GrowsStep(gen, After(gen, s, es[..|es| - 1]), es[|es| - 1]);
    }
  }

  /** Opening a date registers the round as given, in memory and in the database, and keeps the letters
      that the date has and its submissions. */
  lemma OpeningRegisters(s: Store, date: string, roundId: string, endTime: int, letters: string)
    ensures var s' := Opened(s, date, roundId, endTime, letters);
            && s'.dailies.Keys == s.dailies.Keys + {date}
            && (forall other :: other in s.dailies && other != date ==> s'.dailies[other] == s.dailies[other])
            && var d' := s'.dailies[date];
            && d'.paid && d'.roundId == roundId && d'.endTime == endTime
            && (if date in s.dailies
                then d'.letters == s.dailies[date].letters && d'.submissions == s.dailies[date].submissions
                else d'.letters == letters && d'.submissions == map[])
            && (s.db.Some? ==> && s'.db.Some? && s'.db.value.rows == s.db.value.rows
                               && date in s'.db.value.rounds
                               && var row := s'.db.value.rounds[date];
                               row.paid && row.roundId == roundId && row.endTime == endTime)
  {
  }

  // --- recovery ---

  /** The date's bests in memory are exactly the date's rows, each player under one spelling. */
  ghost predicate SameSubmissions(db: Db, date: string, bests: Bests) {
    && (forall key :: key in bests ==> Lower(bests[key].address) == key && IsRow(db, date, bests[key]))
    && (forall address :: (date, address) in db.rows ==>
          Lower(address) in bests && bests[Lower(address)] == db.rows[(date, address)])
  }

  /** The round in memory is the row, or it was never opened and there is none. */
  ghost predicate SameRound(db: Db, date: string, d: Daily) {
    if date in db.rounds then db.rounds[date] == RoundRow(d.letters, d.paid, d.roundId, d.endTime)
    else !d.paid && d.roundId == "" && d.endTime == ZERO_TIME
  }

  ghost predicate Synced(gen: Generator, db: Db, date: string, d: Daily) {
    RowsKeyed(db) && d.letters == gen(date) && SameRound(db, date, d) && SameSubmissions(db, date, d.submissions)
  }

  /** What a date needs of the database before the process touches it: one spelling per player,
      the date's own letters, and no rows without a round. */
  ghost predicate Recoverable(gen: Generator, db: Db, date: string) {
    && RowsKeyed(db)
    && (date in db.rounds ==> db.rounds[date].letters == gen(date))
    && (date !in db.rounds ==> forall address :: (date, address) !in db.rows)
    && (forall a, b :: (date, a) in db.rows && (date, b) in db.rows && Lower(a) == Lower(b) ==> a == b)
  }

  /** Loading a recoverable date brings memory and database into step. */
  lemma LoadSyncs(gen: Generator, db: Db, date: string, loaded: seq<Submission>)
    requires Recoverable(gen, db, date) && Loads(db, date, loaded)
    ensures Synced(gen, db, date, Recover(Some(db), date, loaded, gen(date)))
  {
    var d := Recover(Some(db), date, loaded, gen(date));
    forall key | key in d.submissions
      ensures Lower(d.submissions[key].address) == key && IsRow(db, date, d.submissions[key])
    {
      ByKeyHolds(loaded, key);
    }
    forall address | (date, address) in db.rows
      ensures Lower(address) in d.submissions && d.submissions[Lower(address)] == db.rows[(date, address)]
    {
      var row := db.rows[(date, address)];
      assert IsRow(db, date, row) && row in loaded;
      ByKeyHolds(loaded, Lower(address));
    }
  }

  /** A synced date with a round row can be recovered, and so can one without submissions. */
  lemma SyncedIsRecoverable(gen: Generator, db: Db, date: string, d: Daily)
    requires Synced(gen, db, date, d)
    ensures Recoverable(gen, db, date) <==> date in db.rounds || d.submissions == map[]
  {
    if date !in db.rounds && d.submissions != map[] {
      var key :| key in d.submissions;
      assert (date, d.submissions[key].address) in db.rows;
    }
  }

  /** Two synced copies of a date are the same. */
  lemma SyncedUnique(gen: Generator, db: Db, date: string, d: Daily, d': Daily)
    requires Synced(gen, db, date, d) && Synced(gen, db, date, d')
    ensures d == d'
  {
    forall key | key in d.submissions ensures key in d'.submissions && d'.submissions[key] == d.submissions[key] {
      assert (date, d.submissions[key].address) in db.rows;
    }
    forall key | key in d'.submissions ensures key in d.submissions {
      assert (date, d'.submissions[key].address) in db.rows;
    }
    assert d.submissions == d'.submissions;
  }

  // --- runs that keep a date in step ---

  /** In memory and synced, or not in memory and recoverable. */
  ghost predicate InStep(gen: Generator, s: Store, date: string) {
    && s.db.Some?
    && if date in s.dailies then Synced(gen, s.db.value, date, s.dailies[date])
       else Recoverable(gen, s.db.value, date)
  }

  /** What is asked of the steps that touch the date: a player whose best improves keeps to one
      spelling, a date that the process has not loaded is opened only with its own letters and while
      the database has no submissions for it, and a restart finds the date opened or without
      submissions. */
  ghost predicate Disciplined(gen: Generator, s: Store, date: string, e: Event) {
    match e
    case Get(_, _) => true
    case Open(on, _, _, letters) =>
      on == date && date !in s.dailies ==> letters == gen(date) && NoRows(s, date)
    case Put(on, sub) =>
      on == date && date in s.dailies && Improves(s.dailies[date].submissions, sub) ==>
        OneSpelling(s.dailies[date].submissions, sub)
    case Restart =>
      date in s.dailies ==>
        s.db.Some? && (date in s.db.value.rounds || s.dailies[date].submissions == map[])
  }

  ghost predicate NoRows(s: Store, date: string) {
    s.db.Some? && forall address :: (date, address) !in s.db.value.rows
  }

  /** The player has no best yet, or submits under the spelling of the best. */
  predicate OneSpelling(bests: Bests, sub: Submission) {
    Lower(sub.address) in bests ==> bests[Lower(sub.address)].address == sub.address
  }

  lemma PutKeepsSynced(gen: Generator, db: Db, date: string, d: Daily, sub: Submission)
    requires Synced(gen, db, date, d) && Improves(d.submissions, sub)
    requires OneSpelling(d.submissions, sub)
    ensures Synced(gen, UpsertSubmission(db, date, sub), date, d.(submissions := Recorded(d.submissions, sub)))
  {
    var db', bests := UpsertSubmission(db, date, sub), Recorded(d.submissions, sub);
    if (date, sub.address) in db.rows {
      assert d.submissions[Lower(sub.address)] == db.rows[(date, sub.address)];
    }
    assert db'.rows == db.rows[(date, sub.address) := sub];
    forall address | (date, address) in db'.rows
      ensures Lower(address) in bests && bests[Lower(address)] == db'.rows[(date, address)]
    {
      if address != sub.address && Lower(address) == Lower(sub.address) {
        assert d.submissions[Lower(address)] == db.rows[(date, address)];
      }
    }
  }

  lemma OtherDateKeepsStep(gen: Generator, s: Store, date: string, e: Event)
    requires Enabled(s, e) && InStep(gen, s, date) && !e.Restart? && e.date != date
    ensures InStep(gen, Step(gen, s, e), date)
  {
    var s' := Step(gen, s, e);
    assert date in s'.dailies <==> date in s.dailies;
    assert forall address :: (date, address) in s'.db.value.rows <==> (date, address) in s.db.value.rows;
    if date in s.dailies {
      assert s'.dailies[date] == s.dailies[date];
      assert SameSubmissions(s'.db.value, date, s.dailies[date].submissions);
    }
  }

  /** A second spelling that improves a best leaves the row of the first behind. */
  lemma SecondSpellingBreaksStep(gen: Generator, db: Db, date: string, d: Daily, sub: Submission)
    requires Synced(gen, db, date, d) && Improves(d.submissions, sub) && !OneSpelling(d.submissions, sub)
    ensures !SameSubmissions(UpsertSubmission(db, date, sub), date, Recorded(d.submissions, sub))
  {
    var first := d.submissions[Lower(sub.address)];
    assert (date, first.address) in UpsertSubmission(db, date, sub).rows;
  }

  /** The steps that keep a date in step are exactly the disciplined ones. */
  lemma StepKeepsStep(gen: Generator, s: Store, date: string, e: Event)
    requires Enabled(s, e) && InStep(gen, s, date)
    ensures InStep(gen, Step(gen, s, e), date) <==> Disciplined(gen, s, date, e)
  {
    var db := s.db.value;
    if !e.Restart? && e.date != date {
      OtherDateKeepsStep(gen, s, date, e);
    } else {
      match e
      case Get(_, loaded) =>
        if date !in s.dailies {
          LoadSyncs(gen, db, date, loaded);
        }
      case Open(_, roundId, endTime, letters) =>
        OpenKeepsStep(gen, s, date, roundId, endTime, letters);
      case Put(_, sub) =>
        if Improves(s.dailies[date].submissions, sub) {
          if OneSpelling(s.dailies[date].submissions, sub) {
            PutKeepsSynced(gen, db, date, s.dailies[date], sub);
          } else {
            SecondSpellingBreaksStep(gen, db, date, s.dailies[date], sub);
          }
        }
      case Restart =>
        if date in s.dailies {
          SyncedIsRecoverable(gen, db, date, s.dailies[date]);
        }
    }
  }

  lemma OpenKeepsStep(gen: Generator, s: Store, date: string, roundId: string, endTime: int, letters: string)
    requires InStep(gen, s, date)
    ensures InStep(gen, Opened(s, date, roundId, endTime, letters), date) <==>
            Disciplined(gen, s, date, Open(date, roundId, endTime, letters))
  {
    var s' := Opened(s, date, roundId, endTime, letters);
    assert s'.db.value.rows == s.db.value.rows;
    if date in s.dailies {
      assert SameSubmissions(s'.db.value, date, s'.dailies[date].submissions);
    } else {
      assert s'.dailies[date].submissions == map[] && s'.dailies[date].letters == letters;
      assert SameSubmissions(s'.db.value, date, map[]) <==> NoRows(s, date);
    }
  }

  ghost predicate RunsDisciplined(gen: Generator, s: Store, date: string, es: seq<Event>)
    requires Runs(gen, s, es)
    decreases |es|
  {
    es == [] ||
    (RunsDisciplined(gen, s, date, es[..|es| - 1])
     && Disciplined(gen, After(gen, s, es[..|es| - 1]), date, es[|es| - 1]))
  }

  lemma {:induction false} RunKeepsStep(gen: Generator, s: Store, date: string, es: seq<Event>)
    requires InStep(gen, s, date) && Runs(gen, s, es) && RunsDisciplined(gen, s, date, es)
    ensures InStep(gen, After(gen, s, es), date)
    decreases |es|
  {
    if es != [] {
      RunKeepsStep(gen, s, date, es[..|es| - 1]);
      StepKeepsStep(gen, After(gen, s, es[..|es| - 1]), date, es[|es| - 1]);
    }
  }
}
