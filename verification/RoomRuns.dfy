/** Whole runs of a room: every interleaving of joins, submissions, snapshots, the settlement
    timer and the settlement calls that leave the lock while they consult the chain. */
module RoomRuns {
  import opened Options
  import opened Text
  import opened Seqs
  import opened Scoring
  import opened ScoreLaws
  import opened Ranking
  import opened RoomState

  /** The one-shot settlement timer: set by a staked start once it has left the lock. */
  datatype Timer = Unarmed | ToArm | Armed(due: int, at: int) | Fired(due: int, at: int)

  /** A settlement call outside the lock: before and after it has consulted the chain. */
  datatype Call = Deciding(ticket: Ticket) | Reporting(outcome: SettleStatus)

  datatype Round = Round(pot: nat, rakeBps: nat)

  /** A payout sent to the chain, with the round as it was read for it, and whether it landed. */
  datatype Broadcast = Broadcast(winner: string, roundId: nat, payout: int, read: Round, landed: bool)

  /** A room in its surroundings. `claims` and `broadcasts` are histories, `entered` is what the
      chain knows, and `tried` lists the words each player had judged by a running race. */
  datatype World = World(
    room: Room,
    clock: int,
    timer: Timer,
    calls: seq<Call>,
    claims: seq<Ticket>,
    broadcasts: seq<Broadcast>,
    entered: set<string>,
    tried: map<string, seq<string>>)

  datatype Event =
    | Tick(to: int)
    | Enter(address: string)
    | Join(id: string, stakingOn: bool, answer: Option<bool>, viewAt: int)
    | Start(id: string, letters: string, viewAt: int)
    | Arm
    | Submit(id: string, word: string, viewAt: int)
    | Look(viewAt: int)
    | Fire
    | ExtraSettle
    | Consult(call: nat, round: Option<Round>, signed: bool, sent: bool)
    | Report(call: nat)

  function TriedBy(tried: map<string, seq<string>>, id: string): seq<string> {
    if id in tried then tried[id] else []
  }

  /** When a settlement scheduled at `now` fires: the delay is never negative. */
  function FiringTime(stakeEndsAt: int, now: int): int {
    var delay := stakeEndsAt - now + SETTLE_MARGIN;
    now + if delay < 0 then 0 else delay
  }

  // --- steps ---

  /** Clock readings do not run backwards, and the chain confirms only entries it has seen. */
  predicate Enabled(w: World, e: Event) {
    match e
    case Tick(to) => to >= w.clock
    case Enter(_) => true
    case Join(id, _, answer, viewAt) =>
      viewAt >= w.clock && (answer == Some(true) ==> AddressOf(id) in w.entered)
    case Start(_, _, viewAt) => viewAt >= w.clock
    case Arm => w.timer.ToArm? && w.room.stake.Some?
    case Submit(_, _, viewAt) => viewAt >= w.clock
    case Look(viewAt) => viewAt >= w.clock
    case Fire => w.timer.Armed? && w.clock >= w.timer.due
    case ExtraSettle => w.room.stake.Some?
    case Consult(i, _, _, _) => i < |w.calls| && w.calls[i].Deciding?
    case Report(i) => i < |w.calls| && w.calls[i].Reporting?
  }

  /** The first locked section of a settlement call. */
  function SettleBegin(w: World): World {
    var claimed := w.(room := Claimed(w.room, w.clock));
    if MayClaim(w.room, w.clock)
    then claimed.(calls := w.calls + [Deciding(TicketOf(w.room))], claims := w.claims + [TicketOf(w.room)])
    else claimed
  }

  /** What a call makes of the chain's answers: its outcome, and the payout if it got to send. */
  function Decide(t: Ticket, round: Option<Round>, signed: bool, sent: bool): (SettleStatus, Option<Broadcast>) {
    if t.winner == "" || !IsHexAddress(t.winner) then (Failed(NoEligibleWinner), None)
    else if round.None? then (Failed(RoundUnreadable), None)
    else if !signed then (Failed(NotBroadcast), None)
    else
      var payout := PayoutAfterRake(round.value.pot, round.value.rakeBps);
      (if sent then Settled else Failed(NotBroadcast), Some(Broadcast(t.winner, t.roundId, payout, round.value, sent)))
  }

  ghost function Step(w: World, e: Event): World
    requires Enabled(w, e)
  {
    match e
    case Tick(to) => w.(clock := to)
    case Enter(address) => w.(entered := w.entered + {address})
    case Join(id, stakingOn, answer, viewAt) =>
      w.(room := Joined(w.room, id, stakingOn, answer, viewAt), clock := viewAt)
    case Start(id, letters, viewAt) =>
      w.(room := Started(w.room, id, letters, w.clock, viewAt), clock := viewAt,
         timer := if StartRefusal(w.room, id).None? && w.room.stake.Some? then ToArm else w.timer)
    case Arm => w.(timer := Armed(FiringTime(w.room.stake.value.endsAt, w.clock), w.clock))
    case Submit(id, word, viewAt) =>
      w.(room := Submitted(w.room, id, word, w.clock, viewAt), clock := viewAt,
         tried := if Judges(w.room, id, w.clock) then w.tried[id := TriedBy(w.tried, id) + [word]] else w.tried)
    case Look(viewAt) => w.(room := MaybeFinish(w.room, viewAt), clock := viewAt)
    case Fire => SettleBegin(w).(timer := Fired(w.timer.due, w.timer.at))
    case ExtraSettle => SettleBegin(w)
    case Consult(i, round, signed, sent) =>
      var (outcome, payout) := Decide(w.calls[i].ticket, round, signed, sent);
      w.(calls := w.calls[i := Reporting(outcome)],
         broadcasts := if payout.Some? then w.broadcasts + [payout.value] else w.broadcasts)
    case Report(i) =>
      w.(room := w.room.(status := w.calls[i].outcome), calls := w.calls[..i] + w.calls[i + 1..])
  }

  ghost predicate Initial(w: World) {
    && (exists host, dict, raceLength, stake :: w.room == Created(host, dict, raceLength, stake))
    && w.timer == Unarmed && w.calls == [] && w.claims == [] && w.broadcasts == [] && w.tried == map[]
  }

  ghost predicate Runs(w: World, es: seq<Event>)
    decreases |es|, 0
  {
    es == [] || (Runs(w, es[..|es| - 1]) && Enabled(After(w, es[..|es| - 1]), es[|es| - 1]))
  }

  ghost function After(w: World, es: seq<Event>): World
    requires Runs(w, es)
    decreases |es|, 1
  {
    if es == [] then w else Step(After(w, es[..|es| - 1]), es[|es| - 1])
  }

  // --- what the room keeps ---

  /** A player's record is the scoring words among those the race judged, and their points. */
  ghost predicate RecordOf(r: Room, p: PlayerState, tried: seq<string>) {
    p.found == ScoringWords(r.dict, r.letters, tried) && p.score == Points(p.found) && p.words == |p.found|
  }

  ghost predicate RoomInv(r: Room, tried: map<string, seq<string>>) {
    && NoDuplicates(r.order) && Elements(r.order) == r.players.Keys && |r.order| <= MAX_PLAYERS
    && (forall id :: id in r.players ==> RecordOf(r, r.players[id], TriedBy(tried, id)))
    && (forall id :: id in tried ==> id in r.players && r.phase != Lobby)
  }

  lemma FinishKeeps(r: Room, tried: map<string, seq<string>>, now: int)
    requires RoomInv(r, tried)
    ensures RoomInv(MaybeFinish(r, now), tried)
  {
    var r' := MaybeFinish(r, now);
    forall id | id in r'.players ensures RecordOf(r', r'.players[id], TriedBy(tried, id)) {
      assert RecordOf(r, r.players[id], TriedBy(tried, id));
    }
  }

  lemma NewRecord(r: Room)
    ensures RecordOf(r, NEW_PLAYER, [])
  {
    assert Normals([]) == [];
    assert ScoringWords(r.dict, r.letters, []) == {};
  }

  lemma AddPlayerKeeps(r: Room, tried: map<string, seq<string>>, id: string)
    requires RoomInv(r, tried) && id !in r.players && |r.order| < MAX_PLAYERS
    ensures RoomInv(AddPlayer(r, id), tried)
  {
    var r' := AddPlayer(r, id);
    assert id !in Elements(r.order);
    assert Elements(r'.order) == Elements(r.order) + {id};
    NewRecord(r');
    forall q | q in r'.players ensures RecordOf(r', r'.players[q], TriedBy(tried, q)) {
      if q != id {
        assert RecordOf(r, r.players[q], TriedBy(tried, q));
      }
    }
  }

  /** In the lobby nobody has found anything, so dealing letters invalidates nothing. */
  lemma DealKeeps(r: Room, tried: map<string, seq<string>>, letters: string, endsAt: int)
    requires RoomInv(r, tried) && r.phase == Lobby
    ensures RoomInv(r.(letters := letters, phase := Racing, endsAt := endsAt), tried)
  {
    var r' := r.(letters := letters, phase := Racing, endsAt := endsAt);
    NewRecord(r);
    NewRecord(r');
    forall id | id in r'.players ensures RecordOf(r', r'.players[id], TriedBy(tried, id)) {
      assert RecordOf(r, r.players[id], TriedBy(tried, id));
      assert TriedBy(tried, id) == [];
    }
  }

  lemma JudgedKeeps(r: Room, tried: map<string, seq<string>>, id: string, word: string)
    requires RoomInv(r, tried) && r.phase != Lobby && id in r.players
    ensures RoomInv(WordTried(r, id, word), tried[id := TriedBy(tried, id) + [word]])
  {
    var r', tried' := WordTried(r, id, word), tried[id := TriedBy(tried, id) + [word]];
    assert r'.players.Keys == r.players.Keys;
    forall q | q in r'.players ensures RecordOf(r', r'.players[q], TriedBy(tried', q)) {
      assert RecordOf(r, r.players[q], TriedBy(tried, q));
      if q == id {
        JudgedRecord(r, r.players[id], TriedBy(tried, id), word);
      }
    }
  }

  lemma JudgedRecord(r: Room, p: PlayerState, tried: seq<string>, word: string)
    requires RecordOf(r, p, tried)
    ensures var w := Normalize(word);
            RecordOf(r, if w !in p.found && Scores(r.dict, r.letters, w) then Credited(p, w) else p, tried + [word])
  {
    var w := Normalize(word);
    ScoringWordsAppend(r.dict, r.letters, tried, word);
    if !Scores(r.dict, r.letters, w) {
      assert p.found + {} == p.found;
    } else if w in p.found {
      assert p.found + {w} == p.found;
    } else {
      PointsAdd(p.found, w);
      assert Credited(p, w).found == ScoringWords(r.dict, r.letters, tried + [word]);
    }
  }

  lemma RoomStep(w: World, e: Event)
    requires RoomInv(w.room, w.tried) && Enabled(w, e)
    ensures RoomInv(Step(w, e).room, Step(w, e).tried)
  {
    var r := w.room;
    match e
    case Tick(_) =>
    case Enter(_) =>
    case Join(id, stakingOn, answer, viewAt) =>
      if JoinRefusal(r, id, stakingOn, answer).None? {
        if id !in r.players {
          DistinctCount(r.order);
          assert |r.players| == |r.players.Keys|;
          AddPlayerKeeps(r, w.tried, id);
          FinishKeeps(AddPlayer(r, id), w.tried, viewAt);
        } else {
          FinishKeeps(r, w.tried, viewAt);
        }
      }
    case Start(id, letters, viewAt) =>
      if StartRefusal(r, id).None? {
        DealKeeps(r, w.tried, letters, w.clock + r.raceLength);
        FinishKeeps(r.(letters := letters, phase := Racing, endsAt := w.clock + r.raceLength), w.tried, viewAt);
      }
    case Arm =>
    case Submit(id, word, viewAt) =>
      var r' := MaybeFinish(r, w.clock);
      FinishKeeps(r, w.tried, w.clock);
      if Judges(r, id, w.clock) {
        JudgedKeeps(r', w.tried, id, word);
        FinishKeeps(WordTried(r', id, word), Step(w, e).tried, viewAt);
      } else {
        FinishKeeps(r', w.tried, viewAt);
      }
    case Look(viewAt) =>
      FinishKeeps(r, w.tried, viewAt);
    case Fire =>
      ClaimKeeps(r, w.tried, w.clock);
    case ExtraSettle =>
      ClaimKeeps(r, w.tried, w.clock);
    case Consult(_, _, _, _) =>
    case Report(i) =>
      StatusKeeps(r, w.tried, w.calls[i].outcome);
  }

  lemma StatusKeeps(r: Room, tried: map<string, seq<string>>, status: SettleStatus)
    requires RoomInv(r, tried)
    ensures RoomInv(r.(status := status), tried)
  {
    var r' := r.(status := status);
    forall id | id in r'.players ensures RecordOf(r', r'.players[id], TriedBy(tried, id)) {
      assert RecordOf(r, r.players[id], TriedBy(tried, id));
    }
  }

  lemma ClaimKeeps(r: Room, tried: map<string, seq<string>>, now: int)
    requires RoomInv(r, tried)
    ensures RoomInv(Claimed(r, now), tried)
  {
    FinishKeeps(r, tried, now);
    StatusKeeps(MaybeFinish(r, now), tried, Pending);
  }
}
