/** What the operations of a room do, in plain terms, over steps and runs: who gets in, who may start,
    what a view shows, and which round a settlement is for. */
module RoomLaws {
  import opened Options
  import opened Text
  import opened Seqs
  import opened Dictionaries
  import opened Scoring
  import opened ScoreLaws
  import opened Ranking
  import opened RoomState
  import opened RoomRuns
  import opened RoomSafety

  // --- what a room keeps from its creation ---

  lemma FixedStep(w: World, e: Event)
    requires Enabled(w, e)
    ensures var r, r' := w.room, Step(w, e).room;
            r'.stake == r.stake && r'.host == r.host && r'.dict == r.dict && r'.raceLength == r.raceLength
  {
    match e
    case Join(_, _, _, _) =>
    case Start(_, _, _) =>
    case Submit(_, _, _) =>
    case _ =>
  }

  /** Stake, host, dictionary and race length never change. */
  lemma {:induction false} FixedByCreation(w: World, es: seq<Event>)
    requires Runs(w, es)
    ensures var r, r' := w.room, After(w, es).room;
            r'.stake == r.stake && r'.host == r.host && r'.dict == r.dict && r'.raceLength == r.raceLength
    decreases |es|
  {
    if es != [] {
      FixedByCreation(w, es[..|es| - 1]);
      FixedStep(After(w, es[..|es| - 1]), es[|es| - 1]);
    }
  }

  // --- creation ---

  /** A creation succeeds exactly for a free room, or for a host with a wallet, on a server with staking,
      with a round id that was found and a round that the chain opened. */
  lemma CreationExactlyWhen(host: string, wei: nat, stakingOn: bool, roundId: Option<nat>, onChain: bool)
    ensures CreateRefusal(host, wei, stakingOn, roundId, onChain).None? <==>
            wei == 0 || (IsHexAddress(host) && stakingOn && roundId.Some? && onChain)
    ensures wei > 0 && !IsHexAddress(host) ==>
              CreateRefusal(host, wei, stakingOn, roundId, onChain) == Some(NeedWallet)
    ensures wei > 0 && IsHexAddress(host) && !stakingOn ==>
              CreateRefusal(host, wei, stakingOn, roundId, onChain) == Some(StakingOff)
    ensures wei > 0 && IsHexAddress(host) && stakingOn && roundId.None? ==>
              CreateRefusal(host, wei, stakingOn, roundId, onChain) == Some(RoundNotPrepared)
    ensures wei > 0 && IsHexAddress(host) && stakingOn && roundId.Some? && !onChain ==>
              CreateRefusal(host, wei, stakingOn, roundId, onChain) == Some(RoundNotOpened)
  {
  }

  /** A new room is an open lobby that shows no letters. If it is free its host is its only player; if it
      is staked it has no player yet, and takes entries for its own round for three minutes. */
  lemma NewRoom(host: string, dict: Dictionary, raceLength: nat, wei: nat, roundId: Option<nat>, now: int)
    requires wei > 0 ==> roundId.Some?
    ensures var r := Created(host, dict, raceLength, NewStake(wei, roundId, now));
            && r.phase == Lobby && r.status == Unsettled && r.host == host && r.raceLength == raceLength
            && (wei == 0 ==> r.stake == None && r.order == [host] && r.players == map[host := PlayerState(0, 0, {})])
            && (wei > 0 ==> r.order == [] && r.players == map[]
                            && r.stake == Some(Stake(wei, roundId.value, now + 180_000_000_000)))
  {
  }

  // --- joining ---

  /** A newcomer gets in exactly in a lobby with fewer than five players, and into a staked room only with
      a wallet, on a server with staking, and with an entry that the chain confirms. */
  lemma JoinsExactlyWhen(w: World, e: Event)
    requires Enabled(w, e) && e.Join? && e.id !in w.room.players
    ensures var r, r' := w.room, Step(w, e).room;
            var getsIn := && r.phase == Lobby && |r.players| < 5
                          && (r.stake.None? || (IsHexAddress(e.id) && e.stakingOn && e.answer == Some(true)));
            && (e.id in r'.players <==> getsIn)
            && (getsIn ==> r' == r.(players := r.players[e.id := PlayerState(0, 0, {})], order := r.order + [e.id]))
            && (!getsIn ==> r' == r)
  {
  }

  /** Each refusal of a join by its own conditions; a player who is in already is never refused. */
  lemma JoinRefusalsAre(r: Room, id: string, stakingOn: bool, entered: Option<bool>)
    ensures var why := JoinRefusal(r, id, stakingOn, entered);
            var asks := id !in r.players && r.phase == Lobby && |r.players| < 5 && r.stake.Some?;
            && (id in r.players ==> why == None)
            && (why == Some(AlreadyStarted) <==> id !in r.players && r.phase != Lobby)
            && (why == Some(RoomFull) <==> id !in r.players && r.phase == Lobby && |r.players| >= 5)
            && (why == Some(NeedWallet) <==> asks && !IsHexAddress(id))
            && (why == Some(StakingOff) <==> asks && IsHexAddress(id) && !stakingOn)
            && (why == Some(StakeUnverified) <==> asks && IsHexAddress(id) && stakingOn && entered == None)
            && (why == Some(NotStaked) <==> asks && IsHexAddress(id) && stakingOn && entered == Some(false))
  {
  }

  /** A player who joins again, like anyone who looks, changes nothing except that a race whose time is
      up is over. */
  lemma LookingOnlyEnds(w: World, e: Event)
    requires Enabled(w, e) && (e.Look? || (e.Join? && e.id in w.room.players))
    ensures var r := w.room;
            Step(w, e).room == if r.phase == Racing && e.viewAt >= r.endsAt then r.(phase := Done) else r
  {
  }

  /** Nobody gets in otherwise. */
  lemma OnlyJoinsAdd(w: World, e: Event, id: string)
    requires Enabled(w, e) && id !in w.room.players && id in Step(w, e).room.players
    ensures e.Join? && e.id == id
  {
  }

  lemma {:induction false} PlayersStay(w: World, es: seq<Event>)
    requires Runs(w, es)
    ensures w.room.players.Keys <= After(w, es).room.players.Keys
    decreases |es|
  {
    if es != [] {
      PlayersStay(w, es[..|es| - 1]);
      PhaseMovesForward(After(w, es[..|es| - 1]), es[|es| - 1]);
    }
  }

  /** The host of a free room is in it in every run. */
  lemma FreeHostIsIn(w: World, es: seq<Event>)
    requires Initial(w) && Runs(w, es) && w.room.stake.None?
    ensures w.room.host in After(w, es).room.players
  {
    PlayersStay(w, es);
  }

  // --- starting ---

  /** A race is started by nobody but the host. */
  lemma OnlyHostStarts(w: World, e: Event)
    requires Enabled(w, e) && w.room.phase == Lobby && Step(w, e).room.phase != Lobby
    ensures e.Start? && e.id == w.room.host
  {
  }

  /** The host's start in a lobby deals the letters and sets the end one race length ahead, and the race
      is on unless the clock is already there; any other start changes nothing. */
  lemma StartsExactlyWhen(w: World, e: Event)
    requires Enabled(w, e) && e.Start?
    ensures var r, r' := w.room, Step(w, e).room;
            && (e.id == r.host && r.phase == Lobby ==>
                  var end := w.clock + r.raceLength;
                  r' == r.(phase := if e.viewAt < end then Racing else Done, letters := e.letters, endsAt := end))
            && (!(e.id == r.host && r.phase == Lobby) ==> r' == r)
    ensures e.id != w.room.host ==> StartRefusal(w.room, e.id) == Some(NotTheHost)
    ensures e.id == w.room.host && w.room.phase != Lobby ==> StartRefusal(w.room, e.id) == Some(AlreadyStarted)
  {
  }

  // --- what a view shows ---

  /** The row shows what the referee gives for all the words that the race judged for the player. */
  ghost predicate RowIsJudged(w: World, row: PlayerView) {
    var res := ScoreOf(w.room.dict, w.room.letters, TriedBy(w.tried, row.id));
    row.score == res.total && row.words == |res.accepted|
  }

  /** Exactly one row per player, with what the referee gives for the player's words; best first, ties by
      the order of joining. */
  ghost predicate Standings(w: World, rows: seq<PlayerView>) {
    && |rows| == |w.room.players|
    && (forall i, j :: 0 <= i < j < |rows| ==> rows[i].id != rows[j].id)
    && (forall i :: 0 <= i < |rows| ==> rows[i].id in w.room.players && RowIsJudged(w, rows[i]))
    && (forall i, j :: 0 <= i < j < |rows| ==>
          || rows[i].score > rows[j].score
          || (rows[i].score == rows[j].score
              && Position(w.room.order, rows[i].id) < Position(w.room.order, rows[j].id)))
  }

  /** In every run the view shows these standings, the letters once they are dealt, the first row as the
      winner of a finished race, and the stake times the players as the pot. */
  lemma ViewShows(w: World, es: seq<Event>)
    requires Initial(w) && Runs(w, es)
    ensures var r, view := After(w, es).room, ViewOf(After(w, es).room);
            && Standings(After(w, es), view.players)
            && view.phase == r.phase && view.status == r.status
            && view.letters == (if r.phase == Lobby then "" else r.letters)
            && view.winner == (if r.phase == Done && view.players != [] then view.players[0].id else "")
            && view.pot == (if r.stake.Some? then r.stake.value.wei * |r.players| else 0)
  {
    var later := After(w, es);
    assert Standings(later, ViewOf(later.room).players)
        && |Ranked(later.room.players, later.room.order)| == |later.room.players| by {
      Reachable(w, es);
      ViewRows(later);
    }
    ViewFields(later.room);
  }

  lemma ViewFields(r: Room)
    requires |Ranked(r.players, r.order)| == |r.players|
    ensures var view := ViewOf(r);
            && view.phase == r.phase && view.status == r.status
            && view.letters == (if r.phase == Lobby then "" else r.letters)
            && view.winner == (if r.phase == Done && view.players != [] then view.players[0].id else "")
            && view.pot == (if r.stake.Some? then r.stake.value.wei * |r.players| else 0)
  {
  }

  lemma ViewRows(w: World)
    requires Inv(w)
    ensures Standings(w, ViewOf(w.room).players) && |Ranked(w.room.players, w.room.order)| == |w.room.players|
  {
    var r := w.room;
    var rows, ids := ViewOf(r).players, Ranked(r.players, r.order);
    RankedIsRanking(r.players, r.order);
    DistinctCount(r.order);
    assert |r.players| == |r.players.Keys|;
    forall i | 0 <= i < |rows|
      ensures rows[i].id == ids[i] && ids[i] in r.players && RowIsJudged(w, rows[i])
      ensures rows[i].score == ScoreIn(r.players, ids[i])
    {
      assert ids[i] in Elements(ids);
      RecordIsJudged(w, ids[i]);
    }
    forall i, j | 0 <= i < j < |rows| ensures Before(r.players, r.order, ids[i], ids[j]) {
    }
  }

  lemma RecordIsJudged(w: World, id: string)
    requires RoomInv(w.room, w.tried) && id in w.room.players
    ensures var p, res := w.room.players[id], ScoreOf(w.room.dict, w.room.letters, TriedBy(w.tried, id));
            p.score == res.total && p.words == |res.accepted|
  {
    assert RecordOf(w.room, w.room.players[id], TriedBy(w.tried, id));
    AcceptedAre(w.room.dict, w.room.letters, TriedBy(w.tried, id));
  }

  // --- which round a settlement is for ---

  ghost predicate OwnRound(w: World, stake: Option<Stake>) {
    && (forall c :: c in w.calls && c.Deciding? ==> stake.Some? && c.ticket.roundId == stake.value.roundId)
    && (forall t :: t in w.claims ==> stake.Some? && t.roundId == stake.value.roundId)
    && (forall p :: p in w.broadcasts ==> stake.Some? && p.roundId == stake.value.roundId)
  }

  lemma OwnRoundStep(w: World, e: Event)
    requires OwnRound(w, w.room.stake) && TimerInv(w) && Enabled(w, e)
    ensures OwnRound(Step(w, e), w.room.stake)
  {
    var w' := Step(w, e);
    if e.Report? {
      assert forall c :: c in w'.calls ==> c in w.calls;
    }
  }

  /** In every run whatever is claimed or broadcast is for the round of the stake that the room was
      created with. */
  lemma {:induction false} SettlesItsOwnRound(w: World, es: seq<Event>)
    requires Initial(w) && Runs(w, es)
    ensures OwnRound(After(w, es), w.room.stake)
    decreases |es|
  {
    if es != [] {
      var init := es[..|es| - 1];
      SettlesItsOwnRound(w, init);
      assert TimerInv(After(w, init)) by {
        Reachable(w, init);
      }
      FixedByCreation(w, init);
      OwnRoundStep(After(w, init), es[|es| - 1]);
    }
  }

  /** Once a claimed settlement has no call in flight, its status tells how it came out: settled exactly
      when the broadcast landed, no eligible winner exactly when the leader has no wallet. */
  lemma OutcomeIsReported(w: World, es: seq<Event>)
    requires Initial(w) && Runs(w, es) && After(w, es).claims != [] && After(w, es).calls == []
    ensures var later := After(w, es);
            && (later.room.status == Settled <==> later.broadcasts != [] && later.broadcasts[0].landed)
            && (later.room.status == Failed(NoEligibleWinner) <==>
                !IsHexAddress(Leader(later.room.players, later.room.order)))
            && (later.broadcasts != [] && !later.broadcasts[0].landed ==> later.room.status == Failed(NotBroadcast))
  {
    Reachable(w, es);
  }

  // --- ids ---

  predicate FortyHexDigits(s: string) {
    |s| == 40 && forall i :: 0 <= i < 40 ==> s[i] in "0123456789abcdefABCDEF"
  }

  lemma HexDigits(c: char)
    ensures IsHexDigit(c) <==> c in "0123456789abcdefABCDEF"
  {
    var digits := "0123456789abcdefABCDEF";
    if '0' <= c <= '9' {
      assert digits[c as int - 48] == c;
    } else if 'a' <= c <= 'f' {
      assert digits[c as int - 87] == c;
    } else if 'A' <= c <= 'F' {
      assert digits[c as int - 49] == c;
    }
  }

  /** A wallet address is forty hexadecimal digits, with or without 0x or 0X before them. */
  lemma AddressesAre(id: string)
    ensures IsHexAddress(id) <==>
            || FortyHexDigits(id)
            || (|id| == 42 && id[0] == '0' && (id[1] == 'x' || id[1] == 'X') && FortyHexDigits(id[2..]))
  {
    forall i | 0 <= i < |Digits(id)| ensures IsHexDigit(Digits(id)[i]) <==> Digits(id)[i] in "0123456789abcdefABCDEF" {
      HexDigits(Digits(id)[i]);
    }
    if FortyHexDigits(id) {
      HexDigits(id[1]);
    }
  }

  /** Two addresses are one wallet exactly when their digits differ in case only. */
  lemma OneWalletExactlyWhen(a: string, b: string)
    ensures AddressOf(a) == AddressOf(b) <==>
            |Digits(a)| == |Digits(b)| &&
            forall i :: 0 <= i < |Digits(a)| ==> SameLetter(Digits(a)[i], Digits(b)[i])
  {
    var x, y := Digits(a), Digits(b);
    if AddressOf(a) == AddressOf(b) {
      forall i | 0 <= i < |x| ensures SameLetter(x[i], y[i]) {
        assert Upper(x)[i] == UpperChar(x[i]) && Upper(y)[i] == UpperChar(y[i]);
      }
    }
  }
}
