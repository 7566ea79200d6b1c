/** The store of daily rounds with its persisted copy, and each operation as a function on it. */
module StoreState {
  import opened Options
  import opened Seqs
  import opened DailyState

  datatype RoundRow = RoundRow(letters: string, paid: bool, roundId: string, endTime: int)

  /** The two persisted tables: rounds by date, submissions by date and address as given. */
  datatype Db = Db(rounds: map<string, RoundRow>, rows: map<(string, string), Submission>)

  /** On conflict everything but the letters is overwritten. */
  function UpsertRound(db: Db, date: string, row: RoundRow): Db {
    db.(rounds := db.rounds[date := if date in db.rounds then row.(letters := db.rounds[date].letters) else row])
  }

  /** On conflict a row is overwritten only by a higher score. */
  function UpsertSubmission(db: Db, date: string, sub: Submission): Db {
    var k := (date, sub.address);
    if k in db.rows && db.rows[k].score >= sub.score then db else db.(rows := db.rows[k := sub])
  }

  /** The submission is a persisted row of the date. */
  predicate IsRow(db: Db, date: string, sub: Submission) {
    (date, sub.address) in db.rows && db.rows[(date, sub.address)] == sub
  }

  /** Rows are stored under their own address. */
  ghost predicate RowsKeyed(db: Db) {
    forall date, address :: (date, address) in db.rows ==> db.rows[(date, address)].address == address
  }

  /** What loading a date's submissions may return: its rows, in some order. */
  ghost predicate Loads(db: Db, date: string, loaded: seq<Submission>) {
    NoDuplicates(loaded) && forall sub :: sub in loaded <==> IsRow(db, date, sub)
  }

  /** The loaded rows by lower-cased address; of two that agree, the later one stays. */
  function ByKey(loaded: seq<Submission>): Bests {
    if loaded == [] then map[]
    else
      var last := loaded[|loaded| - 1];
      ByKey(loaded[..|loaded| - 1])[Lower(last.address) := last]
  }

  datatype Store = Store(dailies: map<string, Daily>, db: Option<Db>)

  /** A round that was not touched since the process started. */
  function Recover(db: Option<Db>, date: string, loaded: seq<Submission>, generated: string): Daily {
    var d := if db.Some? && date in db.value.rounds
             then var row := db.value.rounds[date];
                  Daily(row.letters, row.paid, row.roundId, row.endTime, ByKey(loaded))
             else Daily("", false, "", ZERO_TIME, map[]);
    if d.letters == "" then d.(letters := generated) else d
  }

  function GetOrCreated(s: Store, date: string, loaded: seq<Submission>, generated: string): Store {
    if date in s.dailies then s
    else s.(dailies := s.dailies[date := Recover(s.db, date, loaded, generated)])
  }

  function Opened(s: Store, date: string, roundId: string, endTime: int, letters: string): Store {
    var d := if date in s.dailies then s.dailies[date] else Daily(letters, false, "", ZERO_TIME, map[]);
    var d' := d.(paid := true, roundId := roundId, endTime := endTime);
    var row := RoundRow(d'.letters, true, roundId, endTime);
    Store(s.dailies[date := d'], if s.db.Some? then Some(UpsertRound(s.db.value, date, row)) else None)
  }

  function Submitted(s: Store, date: string, sub: Submission): Store
    requires date in s.dailies
  {
    var d := s.dailies[date];
    if !Improves(d.submissions, sub) then s
    else Store(s.dailies[date := d.(submissions := Recorded(d.submissions, sub))],
               if s.db.Some? then Some(UpsertSubmission(s.db.value, date, sub)) else None)
  }

  /** A restart loses the memory and keeps the database. */
  function Restarted(s: Store): Store {
    s.(dailies := map[])
  }

  lemma {:induction false} ByKeyHolds(loaded: seq<Submission>, key: string)
    ensures key in ByKey(loaded) <==> exists sub :: sub in loaded && Lower(sub.address) == key
    ensures key in ByKey(loaded) ==> ByKey(loaded)[key] in loaded && Lower(ByKey(loaded)[key].address) == key
    decreases |loaded|
  {
    if loaded != [] {
      var init, last := loaded[..|loaded| - 1], loaded[|loaded| - 1];
      assert loaded == init + [last];
      ByKeyHolds(init, key);
      if Lower(last.address) == key {
        assert last in loaded;
      }
    }
  }
}
