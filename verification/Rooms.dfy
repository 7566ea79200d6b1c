/** The live room: an object whose locked operations update its fields and its players' in place,
    each proved against its function in RoomState. */
module Rooms {
  import opened Options
  import opened Text
  import opened Seqs
  import opened Dictionaries
  import Scoring
  import opened ScoreLaws
  import opened Ranking
  import opened RoomState

  class Player {
    var score: nat
    var words: nat
    var found: set<string>

    constructor ()
      ensures State() == NEW_PLAYER
    {
      score, words, found := 0, 0, {};
    }

    function State(): PlayerState
      reads this
    {
      PlayerState(score, words, found)
    }
  }

  class LiveRoom {
    const host: string
    const dict: Dictionary
    const raceLength: nat
    const stake: Option<Stake>
    var phase: Phase
    var letters: string
    var endsAt: int
    var players: map<string, Player>
    var order: seq<string>
    var status: SettleStatus

    /** The join order lists exactly the players, each once, and no two ids share a record. */
    ghost predicate Valid()
      reads this`order, this`players
    {
      && NoDuplicates(order) && Elements(order) == players.Keys
      && forall a, b :: a in players && b in players && players[a] == players[b] ==> a == b
    }

    function Records(): Players
      reads this`players, players.Values
    {
      map id | id in players :: players[id].State()
    }

    /** The abstract room. */
    function State(): Room
      reads this, players.Values
    {
      Room(host, phase, letters, endsAt, Records(), order, dict, raceLength, stake, status)
    }

    constructor Create(host: string, dict: Dictionary, raceLength: nat, stake: Option<Stake>)
      ensures Valid() && fresh(players.Values)
      ensures State() == Created(host, dict, raceLength, stake)
    {
      this.host, this.dict, this.raceLength, this.stake := host, dict, raceLength, stake;
      phase, letters, endsAt, players, order, status := Lobby, "", 0, map[], [], Unsettled;
      new;
      if stake.None? {
        AddPlayer(host);
      }
    }

    method AddPlayer(id: string)
      requires Valid() && id !in players
      modifies this
      ensures Valid() && fresh(players.Values - old(players.Values))
      ensures State() == RoomState.AddPlayer(old(State()), id)
    {
      var p := new Player();
      players := players[id := p];
      order := order + [id];
      assert Elements(order) == old(Elements(order)) + {id};
      assert Records() == old(Records())[id := NEW_PLAYER];
    }

    method MaybeFinish(now: int)
      modifies this`phase
      ensures State() == RoomState.MaybeFinish(old(State()), now)
    {
      if phase == Racing && now >= endsAt {
        phase := Done;
      }
    }

    /** The top-scoring player, or "" in an empty room. */
    method Leader() returns (id: string)
      ensures id == Ranking.Leader(Records(), order)
    {
      var ids := RankIds(Records(), order);
      return if |ids| == 0 then "" else ids[0];
    }

    /** The room as a client sees it; looking may be what ends the race. */
    method Snapshot(now: int) returns (view: RoomView)
      modifies this`phase
      ensures State() == RoomState.MaybeFinish(old(State()), now)
      ensures view == ViewOf(State())
    {
      MaybeFinish(now);
      var records := Records();
      var ids := RankIds(records, order);
      var rows: seq<PlayerView> := [];
      for i := 0 to |ids|
        invariant rows == seq(i, k requires 0 <= k < i => ViewRow(records, ids[k]))
      {
        rows := rows + [ViewRow(records, ids[i])];
      }
      view := RoomView(
        phase,
        if phase == Lobby then "" else letters,
        rows,
        if phase == Done && |ids| > 0 then ids[0] else "",
        if stake.Some? then stake.value.wei * |ids| else 0,
        status);
    }

    // --- operations ---

    /** The checks on a join, in order. */
    method CheckJoin(id: string, stakingOn: bool, entered: Option<bool>) returns (error: Option<RoomError>)
      ensures error == JoinRefusal(State(), id, stakingOn, entered)
    {
      assert Records().Keys == players.Keys;
      if id in players {
        return None;
      }
      if phase != Lobby {
        return Some(AlreadyStarted);
      }
      if |players| >= MAX_PLAYERS {
        return Some(RoomFull);
      }
      if stake.Some? {
        if !IsHexAddress(id) {
          return Some(NeedWallet);
        }
        if !stakingOn {
          return Some(StakingOff);
        }
        if entered.None? {
          return Some(StakeUnverified);
        }
        if !entered.value {
          return Some(NotStaked);
        }
      }
      return None;
    }

    method Join(id: string, stakingOn: bool, entered: Option<bool>, viewAt: int)
      returns (view: Option<RoomView>, error: Option<RoomError>)
      requires Valid()
      modifies this
      ensures Valid() && fresh(players.Values - old(players.Values))
      ensures State() == Joined(old(State()), id, stakingOn, entered, viewAt)
      ensures error == old(JoinRefusal(State(), id, stakingOn, entered))
      ensures view == if error.None? then Some(ViewOf(State())) else None
    {
      error := CheckJoin(id, stakingOn, entered);
      if error.Some? {
        return None, error;
      }
      if id !in players {
        AddPlayer(id);
      }
      var v := Snapshot(viewAt);
      view := Some(v);
    }

    method Start(id: string, dealt: string, now: int, viewAt: int)
      returns (view: Option<RoomView>, error: Option<RoomError>)
      requires Valid()
      modifies this
      ensures Valid() && players == old(players)
      ensures State() == Started(old(State()), id, dealt, now, viewAt)
      ensures error == old(StartRefusal(State(), id))
      ensures error.None? <==> id == host && old(phase) == Lobby
      ensures view == if error.None? then Some(ViewOf(State())) else None
    {
      if id != host {
        return None, Some(NotTheHost);
      }
      if phase != Lobby {
        return None, Some(AlreadyStarted);
      }
      letters := dealt;
      phase := Racing;
      endsAt := now + raceLength;
      var v := Snapshot(viewAt);
      return Some(v), None;
    }

    /** Credits a player with a word. */
    method Credit(id: string, w: string, pts: nat)
      requires Valid() && id in players && pts == Scoring.WordPoints(|w|)
      modifies players[id]
      ensures Valid()
      ensures State() == old(State()).(players := old(Records())[id := Credited(old(Records())[id], w)])
    {
      var p := players[id];
      p.found := p.found + {w};
      p.score := p.score + pts;
      p.words := p.words + 1;
      assert Records() == old(Records())[id := Credited(old(Records())[id], w)];
    }

    /** Judges a word of a player in a running race, on its own and against the player's own
        earlier finds. */
    method JudgeWord(id: string, word: string) returns (accepted: bool, points: nat)
      requires Valid() && id in players
      modifies players[id]
      ensures State() == RoomState.WordTried(old(State()), id, word)
      ensures accepted <==> old(Counts(State(), id, word))
      ensures points == if accepted then Scoring.WordPoints(|Normalize(word)|) else 0
    {
      var w := Normalize(word);
      if w in players[id].found {
        return false, 0;
      }
      NormalizeIdempotent(word);
      ScoreOne(dict, letters, w);
      var res := Scoring.Score(dict, letters, [w]);
      if |res.accepted| != 1 {
        return false, 0;
      }
      Credit(id, w, res.accepted[0].points);
      return true, res.accepted[0].points;
    }

    method Submit(id: string, word: string, now: int, viewAt: int)
      returns (accepted: bool, points: nat, view: Option<RoomView>, error: Option<RoomError>)
      requires Valid()
      modifies this, players.Values
      ensures Valid() && players == old(players)
      ensures State() == Submitted(old(State()), id, word, now, viewAt)
      ensures accepted <==> old(Judges(State(), id, now) && Counts(State(), id, word))
      ensures points == if accepted then Scoring.WordPoints(|Normalize(word)|) else 0
      ensures error == if RoomState.MaybeFinish(old(State()), now).phase != Racing then Some(NotRunning)
                       else if id !in players then Some(NotInRoom) else None
      ensures view == if error == Some(NotInRoom) then None else Some(ViewOf(State()))
    {
      MaybeFinish(now);
      if phase != Racing {
        var v := Snapshot(viewAt);
        return false, 0, Some(v), Some(NotRunning);
      }
      if id !in players {
        return false, 0, None, Some(NotInRoom);
      }
      accepted, points := JudgeWord(id, word);
      var v := Snapshot(viewAt);
      return accepted, points, Some(v), None;
    }

    // --- settlement ---

    /** The first locked section of a settlement: claims it, once, when the race is over. */
    method SettleBegin(now: int) returns (ticket: Option<Ticket>)
      requires Valid()
      modifies this`phase, this`status
      ensures Valid() && State() == Claimed(old(State()), now)
      ensures ticket == if old(MayClaim(State(), now)) then Some(TicketOf(State())) else None
      ensures ticket.Some? && stake.Some? ==> ticket.value.roundId == stake.value.roundId
    {
      MaybeFinish(now);
      if phase != Done || status != Unsettled {
        return None;
      }
      status := Pending;
      var winner := Leader();
      return Some(Ticket(winner, if stake.Some? then stake.value.roundId else 0));
    }

    /** The last locked section of a settlement: records how it came out. */
    method SettleEnd(outcome: SettleStatus)
      modifies this`status
      ensures State() == old(State()).(status := outcome)
    {
      status := outcome;
    }
  }

  /** Creates a room, or says why not. A free room comes with its host in it; a staked one has a round
      on the chain and nobody in it, not even the host. */
  method Create(host: string, dict: Dictionary, raceLength: nat, wei: nat, stakingOn: bool,
                roundId: Option<nat>, onChain: bool, now: int, viewAt: int)
    returns (room: LiveRoom?, view: Option<RoomView>, error: Option<RoomError>)
    ensures error == CreateRefusal(host, wei, stakingOn, roundId, onChain)
    ensures error.Some? <==> room == null
    ensures room != null ==>
              && fresh(room) && fresh(room.players.Values) && room.Valid()
              && room.State() == Created(host, dict, raceLength, NewStake(wei, roundId, now))
              && view == Some(ViewOf(room.State()))
  {
    var stake: Option<Stake> := None;
    if wei > 0 {
      if !IsHexAddress(host) {
        return null, None, Some(NeedWallet);
      }
      if !stakingOn {
        return null, None, Some(StakingOff);
      }
      if roundId.None? {
        return null, None, Some(RoundNotPrepared);
      }
      var endsAt := now + STAKE_WINDOW;
      if !onChain {
        return null, None, Some(RoundNotOpened);
      }
      stake := Some(Stake(wei, roundId.value, endsAt));
    }
    room := new LiveRoom.Create(host, dict, raceLength, stake);
    var v := room.Snapshot(viewAt);
    return room, Some(v), None;
  }
}
