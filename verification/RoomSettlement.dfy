/** When a staked race gets settled: the timer fires once, and only a race that is over by then
    is ever settled. */
module RoomSettlement {
  import opened Options
  import opened Seqs
  import opened Text
  import opened Dictionaries
  import opened Scoring
  import opened Ranking
  import opened RoomState
  import opened RoomRuns
  import opened RoomSafety

  /** The scheduled firing waits out the stake window and the margin. */
  lemma FiringAfterWindow(stakeEndsAt: int, now: int)
    ensures FiringTime(stakeEndsAt, now) >= stakeEndsAt + SETTLE_MARGIN
    ensures FiringTime(stakeEndsAt, now) >= now
    ensures FiringTime(stakeEndsAt, now) == stakeEndsAt + SETTLE_MARGIN || FiringTime(stakeEndsAt, now) == now
  {
  }

  /** The firing time in plain terms: two seconds after the window, or at once if that is past. */
  lemma FiringTimeIs(stakeEndsAt: int, now: int)
    ensures FiringTime(stakeEndsAt, now) ==
            if now < stakeEndsAt + 2_000_000_000 then stakeEndsAt + 2_000_000_000 else now
  {
  }

  /** In every run the timer fires only once the stake window has been closed for the margin. */
  lemma TimerFiresAfterWindow(w: World, es: seq<Event>)
    requires Initial(w) && Runs(w, es) && Enabled(After(w, es), Fire)
    ensures After(w, es).room.stake.Some?
    ensures After(w, es).clock >= After(w, es).room.stake.value.endsAt + SETTLE_MARGIN
  {
    Reachable(w, es);
    FiringAfterWindow(After(w, es).room.stake.value.endsAt, After(w, es).timer.at);
  }

  // --- runs as coded, with an on-time timer ---

  /** A step of the program itself: settlement is attempted by the timer only, and an armed timer
      fires before the clock moves past its due time. */
  ghost predicate Punctual(w: World, e: Event) {
    && Enabled(w, e) && !e.ExtraSettle?
    && (w.timer.Armed? ==> Step(w, e).clock <= w.timer.due)
  }

  ghost predicate RunsPunctually(w: World, es: seq<Event>)
    requires Runs(w, es)
    decreases |es|
  {
    es == [] ||
    (RunsPunctually(w, es[..|es| - 1]) && Punctual(After(w, es[..|es| - 1]), es[|es| - 1]))
  }

  /** Nothing is claimed before the timer fires, and the firing claims exactly a finished race. */
  ghost predicate TimerInCharge(w: World) {
    match w.timer
    case Unarmed => w.claims == []
    case ToArm => w.claims == []
    case Armed(due, _) => w.claims == [] && w.clock <= due
    case Fired(due, _) => w.claims != [] <==> w.room.endsAt <= due
  }

  lemma TimerInChargeStep(w: World, e: Event)
    requires Inv(w) && TimerInCharge(w) && Punctual(w, e)
    ensures TimerInCharge(Step(w, e))
  {
    match e
    case Fire =>
      assert MayClaim(w.room, w.clock) <==> w.room.endsAt <= w.clock;
    case Arm =>
      FiringAfterWindow(w.room.stake.value.endsAt, w.clock);
    case _ =>
      if w.room.phase != Lobby {
        PhaseMovesForward(w, e);
      }
  }

  lemma {:induction false} PunctualRun(w: World, es: seq<Event>)
    requires Initial(w) && Runs(w, es) && RunsPunctually(w, es)
    ensures Inv(After(w, es)) && TimerInCharge(After(w, es))
    decreases |es|
  {
    Reachable(w, es);
    if es != [] {
      PunctualRun(w, es[..|es| - 1]);
      TimerInChargeStep(After(w, es[..|es| - 1]), es[|es| - 1]);
    }
  }

  /** Settlement progress, exactly as coded. Once the timer has fired, the room is unsettled, with
      nothing broadcast, if and only if the race was still running when the timer was due; and since
      this holds at every later point of the run, it stays so. Otherwise the room is settled or
      failed as soon as no call is in flight. */
  lemma SettledExactlyWhenOverInTime(w: World, es: seq<Event>)
    requires Initial(w) && Runs(w, es) && RunsPunctually(w, es) && After(w, es).timer.Fired?
    ensures var later := After(w, es);
            && (later.room.status == Unsettled <==> later.room.endsAt > later.timer.due)
            && (later.room.endsAt > later.timer.due ==> later.broadcasts == [] && later.calls == [])
            && (later.calls == [] ==> (Final(later.room.status) <==> later.room.endsAt <= later.timer.due))
  {
    PunctualRun(w, es);
  }

  /** For a timer set before the race is over, as it is after a start that is not held up for the
      length of the race, that comes down to: the race ends within the margin after the stake
      window. */
  lemma SettledExactlyWhenRaceFitsWindow(w: World, es: seq<Event>)
    requires Initial(w) && Runs(w, es) && RunsPunctually(w, es) && After(w, es).timer.Fired?
    requires After(w, es).timer.at < After(w, es).room.endsAt
    ensures var later := After(w, es);
            && later.room.stake.Some?
            && (later.room.status != Unsettled <==> later.room.endsAt <= later.room.stake.value.endsAt + SETTLE_MARGIN)
  {
    assert Inv(After(w, es)) by {
      PunctualRun(w, es);
    }
    var later := After(w, es);
    FiringAfterWindow(later.room.stake.value.endsAt, later.timer.at);
    SettledExactlyWhenOverInTime(w, es);
  }

  /** Once armed the timer keeps its due time, and fires or goes on waiting. */
  ghost predicate KeptTimer(armed: Timer, later: Timer) {
    armed.Armed? && (later == armed || later == Fired(armed.due, armed.at))
  }

  lemma KeptTimerStep(armed: Timer, w: World, e: Event)
    requires TimerInv(w) && Enabled(w, e) && KeptTimer(armed, w.timer)
    ensures KeptTimer(armed, Step(w, e).timer)
  {
  }

  lemma {:induction false} ArmedTimerKept(w: World, es: seq<Event>, a: nat)
    requires Initial(w) && Runs(w, es) && a <= |es|
    requires Runs(w, es[..a]) && After(w, es[..a]).timer.Armed?
    ensures KeptTimer(After(w, es[..a]).timer, After(w, es).timer)
    decreases |es|
  {
    if a < |es| {
      var init := es[..|es| - 1];
      assert init[..a] == es[..a];
      ArmedTimerKept(w, init, a);
      assert TimerInv(After(w, init)) by {
        Reachable(w, init);
      }
      KeptTimerStep(After(w, es[..a]).timer, After(w, init), es[|es| - 1]);
    } else {
      assert es[..a] == es;
    }
  }

  /** The same progress by the clock alone: once the clock has passed the due time of a timer that was
      armed at any point of the run, the timer has fired, and the room is unsettled for good exactly
      when the race was still running when it was due, and settled or failed otherwise, as soon as no
      call is in flight. */
  lemma SettledByTheClock(w: World, es: seq<Event>, a: nat)
    requires Initial(w) && Runs(w, es) && RunsPunctually(w, es) && a <= |es|
    requires Runs(w, es[..a]) && After(w, es[..a]).timer.Armed?
    requires After(w, es).clock > After(w, es[..a]).timer.due
    ensures var due, later := After(w, es[..a]).timer.due, After(w, es);
            && (later.room.status == Unsettled <==> later.room.endsAt > due)
            && (later.room.endsAt > due ==> later.broadcasts == [] && later.calls == [])
            && (later.calls == [] ==> (Final(later.room.status) <==> later.room.endsAt <= due))
  {
    ArmedTimerKept(w, es, a);
    assert TimerInCharge(After(w, es)) by {
      PunctualRun(w, es);
    }
    assert After(w, es).timer.Fired?;
    SettledExactlyWhenOverInTime(w, es);
  }

  lemma RunExtended(w: World, es: seq<Event>, e: Event)
    requires Runs(w, es) && RunsPunctually(w, es) && Punctual(After(w, es), e)
    ensures Runs(w, es + [e]) && RunsPunctually(w, es + [e])
    ensures After(w, es + [e]) == Step(After(w, es), e)
  {
    RunAppended(w, es, e);
    assert (es + [e])[..|es|] == es;
  }

  // --- a start that comes too late ---

  /** A staked room with the default times, two and a half minutes after its creation. */
  ghost predicate LateRoom(w: World, host: string, dict: Dictionary) {
    && w.room == Created(host, dict, 60 * SECOND, Some(Stake(1, 7, STAKE_WINDOW)))
    && w == World(w.room, 150 * SECOND, Unarmed, [], [], [], {}, map[])
  }

  /** A race that misses the window: a race of one minute started two and a half minutes into a stake
      window of three, with a player who has entered and then scores with any word that the letters
      allow. The timer finds it still running, and the player, who leads, is never paid. */
  lemma LateStartIsNotSettled(w: World, host: string, dict: Dictionary, letters: string, word: string)
    returns (es: seq<Event>)
    requires LateRoom(w, host, dict) && IsHexAddress(host)
    requires Scores(dict, letters, Normalize(word))
    ensures Initial(w) && Runs(w, es) && RunsPunctually(w, es)
    ensures var later := After(w, es);
            && later.timer.Fired? && later.calls == [] && later.room.status == Unsettled
            && Leader(later.room.players, later.room.order) == host && ScoreIn(later.room.players, host) > 0
            && AddressOf(host) in later.entered
  {
    es := LateStart(w, host, dict, letters);
    var armed := After(w, es);
    LateScore(armed, host, word);
    RunExtended(w, es, Submit(host, word, armed.clock));
    es := es + [Submit(host, word, armed.clock)];
    var scored := After(w, es);
    LateFiring(scored, host);
    RunExtended(w, es, Tick(scored.timer.due));
    es := es + [Tick(scored.timer.due)];
    RunExtended(w, es, Fire);
    es := es + [Fire];
    OnlyPlayerLeads(After(w, es).room.players, host);
  }

  /** The room of that run with its timer armed, to go off 28 seconds before the race ends. */
  ghost predicate LateAndArmed(w: World, host: string) {
    && w.room.phase == Racing && w.room.endsAt == 210 * SECOND && w.room.status == Unsettled
    && host in w.room.players && w.room.order == [host] && AddressOf(host) in w.entered
    && w.clock == 150 * SECOND && w.timer == Armed(182 * SECOND, 150 * SECOND) && w.calls == []
  }

  lemma LateStart(w: World, host: string, dict: Dictionary, letters: string) returns (es: seq<Event>)
    requires LateRoom(w, host, dict) && IsHexAddress(host)
    ensures Initial(w) && Runs(w, es) && RunsPunctually(w, es) && LateAndArmed(After(w, es), host)
    ensures var r := After(w, es).room;
            r.dict == dict && r.letters == letters && r.players[host] == NEW_PLAYER
  {
    var now := 150 * SECOND;
    var entered := [Enter(AddressOf(host))];
    assert [] + [Enter(AddressOf(host))] == entered;
    RunExtended(w, [], Enter(AddressOf(host)));
    var joined := entered + [Join(host, true, Some(true), now)];
    RunExtended(w, entered, Join(host, true, Some(true), now));
    assert After(w, joined).room == AddPlayer(w.room, host);
    RunExtended(w, joined, Start(host, letters, now));
    es := joined + [Start(host, letters, now)];
    RunExtended(w, es, Arm);
    es := es + [Arm];
  }

  lemma LateScore(w: World, host: string, word: string)
    requires LateAndArmed(w, host) && w.room.players[host] == NEW_PLAYER
    requires Scores(w.room.dict, w.room.letters, Normalize(word))
    ensures Punctual(w, Submit(host, word, w.clock))
    ensures var after := Step(w, Submit(host, word, w.clock));
            LateAndArmed(after, host) && ScoreIn(after.room.players, host) > 0
  {
  }

  lemma LateFiring(w: World, host: string)
    requires LateAndArmed(w, host)
    ensures Punctual(w, Tick(w.timer.due)) && Punctual(Step(w, Tick(w.timer.due)), Fire)
    ensures var after := Step(Step(w, Tick(w.timer.due)), Fire);
            && after.timer.Fired? && after.calls == [] && after.entered == w.entered
            && after.room == w.room
  {
  }

  lemma OnlyPlayerLeads(players: Players, id: string)
    ensures Leader(players, [id]) == id
  {
    RankedIsRanking(players, [id]);
    var ids := Ranked(players, [id]);
    assert ids[0] in Elements(ids);
  }

  /** A pending settlement is two steps of its own from its end, whatever the chain answers. */
  lemma PendingCanEnd(w: World, round: Option<Round>, signed: bool, sent: bool)
    requires Inv(w) && w.room.status == Pending
    ensures if w.calls[0].Deciding? then
              var asked := Consult(0, round, signed, sent);
              && Enabled(w, asked) && Enabled(Step(w, asked), Report(0))
              && Final(Step(Step(w, asked), Report(0)).room.status)
              && Step(Step(w, asked), Report(0)).calls == []
            else
              Enabled(w, Report(0)) && Final(Step(w, Report(0)).room.status) && Step(w, Report(0)).calls == []
  {
    if w.calls[0].Deciding? {
      SettleStep(w, Consult(0, round, signed, sent));
    }
  }
}
