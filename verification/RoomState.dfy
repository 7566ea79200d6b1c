/** A race room as a value, and each of the room's locked operations as a function on it. The
    clock readings that an operation takes are its parameters. */
module RoomState {
  import opened Options
  import opened Text
  import opened Dictionaries
  import opened Scoring
  import opened Ranking

  const MAX_PLAYERS := 5

  /** Times are in nanoseconds. */
  const SECOND := 1_000_000_000

  /** The margin that a scheduled settlement leaves after the stake window closes. */
  const SETTLE_MARGIN := 2 * SECOND

  /** How long a staked room's round takes entries. */
  const STAKE_WINDOW := 180 * SECOND

  datatype Phase = Lobby | Racing | Done

  datatype SettleFailure = NoEligibleWinner | RoundUnreadable | NotBroadcast

  datatype SettleStatus = Unsettled | Pending | Settled | Failed(why: SettleFailure)

  datatype Stake = Stake(wei: nat, roundId: nat, endsAt: int)

  datatype Room = Room(
    host: string,
    phase: Phase,
    letters: string,
    endsAt: int,
    players: Players,
    order: seq<string>,
    dict: Dictionary,
    raceLength: nat,
    stake: Option<Stake>,
    status: SettleStatus)

  datatype RoomError =
    | AlreadyStarted | RoomFull | NeedWallet | StakingOff | StakeUnverified | NotStaked
    | NotTheHost | NotRunning | NotInRoom | RoundNotPrepared | RoundNotOpened

  datatype PlayerView = PlayerView(id: string, score: nat, words: nat)

  /** What a client is shown; letters stay hidden until the race starts. */
  datatype RoomView = RoomView(
    phase: Phase,
    letters: string,
    players: seq<PlayerView>,
    winner: string,
    pot: nat,
    status: SettleStatus)

  predicate IsHexDigit(c: char) {
    '0' <= c <= '9' || 'a' <= c <= 'f' || 'A' <= c <= 'F'
  }

  /** The 40 digits of a wallet address, without the optional 0x. */
  function Digits(id: string): string {
    if |id| >= 2 && id[0] == '0' && (id[1] == 'x' || id[1] == 'X') then id[2..] else id
  }

  predicate IsHexAddress(id: string) {
    |Digits(id)| == 40 && forall i :: 0 <= i < 40 ==> IsHexDigit(Digits(id)[i])
  }

  /** The wallet that an id denotes: addresses are compared without regard to case. */
  function AddressOf(id: string): string {
    Upper(Digits(id))
  }

  const NEW_PLAYER := PlayerState(0, 0, {})

  // --- internals ---

  function MaybeFinish(r: Room, now: int): Room {
    if r.phase == Racing && now >= r.endsAt then r.(phase := Done) else r
  }

  function AddPlayer(r: Room, id: string): Room {
    r.(players := r.players[id := NEW_PLAYER], order := r.order + [id])
  }

  function ViewRow(players: Players, id: string): PlayerView {
    if id in players then PlayerView(id, players[id].score, players[id].words) else PlayerView(id, 0, 0)
  }

  function ViewOf(r: Room): RoomView {
    var ids := Ranked(r.players, r.order);
    RoomView(
      r.phase,
      if r.phase == Lobby then "" else r.letters,
      seq(|ids|, i requires 0 <= i < |ids| => ViewRow(r.players, ids[i])),
      if r.phase == Done && |ids| > 0 then ids[0] else "",
      if r.stake.Some? then r.stake.value.wei * |ids| else 0,
      r.status)
  }

  // --- operations ---

  /** A room as Create leaves it: the host of a free room is in, that of a staked one is not. */
  function Created(host: string, dict: Dictionary, raceLength: nat, stake: Option<Stake>): Room {
    var empty := Room(host, Lobby, "", 0, map[], [], dict, raceLength, stake, Unsettled);
    if stake.Some? then empty else AddPlayer(empty, host)
  }

  /** Why a creation is refused, if it is: a free room never is. `roundId` is the fresh round id, None
      if none could be had, and `onChain` says whether the chain opened the round. */
  function CreateRefusal(host: string, wei: nat, stakingOn: bool, roundId: Option<nat>, onChain: bool)
    : Option<RoomError>
  {
    if wei == 0 then None
    else if !IsHexAddress(host) then Some(NeedWallet)
    else if !stakingOn then Some(StakingOff)
    else if roundId.None? then Some(RoundNotPrepared)
    else if !onChain then Some(RoundNotOpened)
    else None
  }

  /** The stake of a room created at `now`. */
  function NewStake(wei: nat, roundId: Option<nat>, now: int): Option<Stake> {
    if wei > 0 && roundId.Some? then Some(Stake(wei, roundId.value, now + STAKE_WINDOW)) else None
  }

  /** Why a join is refused, if it is. `entered` is the chain's answer, None if it gave none. */
  function JoinRefusal(r: Room, id: string, stakingOn: bool, entered: Option<bool>): Option<RoomError> {
    if id in r.players then None
    else if r.phase != Lobby then Some(AlreadyStarted)
    else if |r.players| >= MAX_PLAYERS then Some(RoomFull)
    else if r.stake.None? then None
    else if !IsHexAddress(id) then Some(NeedWallet)
    else if !stakingOn then Some(StakingOff)
    else if entered.None? then Some(StakeUnverified)
    else if !entered.value then Some(NotStaked)
    else None
  }

  function Joined(r: Room, id: string, stakingOn: bool, entered: Option<bool>, viewAt: int): Room {
    if JoinRefusal(r, id, stakingOn, entered).Some? then r
    else MaybeFinish(if id in r.players then r else AddPlayer(r, id), viewAt)
  }

  function StartRefusal(r: Room, id: string): Option<RoomError> {
    if id != r.host then Some(NotTheHost)
    else if r.phase != Lobby then Some(AlreadyStarted)
    else None
  }

  function Started(r: Room, id: string, letters: string, now: int, viewAt: int): Room {
    if StartRefusal(r, id).Some? then r
    else MaybeFinish(r.(letters := letters, phase := Racing, endsAt := now + r.raceLength), viewAt)
  }

  /** A player who is credited with a word. */
  function Credited(p: PlayerState, w: string): PlayerState {
    PlayerState(p.score + WordPoints(|w|), p.words + 1, p.found + {w})
  }

  /** The room gets to judge a word: the race is on and the player is in it. */
  predicate Judges(r: Room, id: string, now: int) {
    MaybeFinish(r, now).phase == Racing && id in r.players
  }

  /** A judged word is counted if the player did not find it before and it scores. */
  ghost predicate Counts(r: Room, id: string, word: string)
    requires id in r.players
  {
    Normalize(word) !in r.players[id].found && Scores(r.dict, r.letters, Normalize(word))
  }

  /** The room once a running race has judged a player's word. */
  ghost function WordTried(r: Room, id: string, word: string): Room
    requires id in r.players
  {
    if Counts(r, id, word) then r.(players := r.players[id := Credited(r.players[id], Normalize(word))]) else r
  }

  ghost function Submitted(r: Room, id: string, word: string, now: int, viewAt: int): Room {
    var r := MaybeFinish(r, now);
    if r.phase != Racing then MaybeFinish(r, viewAt)
    else if id !in r.players then r
    else MaybeFinish(WordTried(r, id, word), viewAt)
  }

  // --- settlement: begun and ended under the lock, with the chain consulted in between ---

  datatype Ticket = Ticket(winner: string, roundId: nat)

  predicate MayClaim(r: Room, now: int) {
    MaybeFinish(r, now).phase == Done && r.status == Unsettled
  }

  function Claimed(r: Room, now: int): Room {
    var r' := MaybeFinish(r, now);
    if MayClaim(r, now) then r'.(status := Pending) else r'
  }

  /** What a settlement carries away from the lock: the winner and the round. */
  function TicketOf(r: Room): Ticket {
    Ticket(Leader(r.players, r.order), if r.stake.Some? then r.stake.value.roundId else 0)
  }

  const BPS_DENOMINATOR := 10000

  /** The pot less the rake, which is rounded down. */
  function PayoutAfterRake(pot: nat, rakeBps: nat): int {
    pot - pot * rakeBps / BPS_DENOMINATOR
  }

  /** Rounding favours the winner: the payout is the share of the pot rounded up, and it never
      exceeds the pot. The code relies on the contract for the bound on the rake. */
  lemma PayoutIsShareRoundedUp(pot: nat, rakeBps: nat)
    requires rakeBps <= BPS_DENOMINATOR
    ensures 0 <= PayoutAfterRake(pot, rakeBps) <= pot
    ensures var due := pot * (BPS_DENOMINATOR - rakeBps);
            PayoutAfterRake(pot, rakeBps) * BPS_DENOMINATOR - BPS_DENOMINATOR < due
              <= PayoutAfterRake(pot, rakeBps) * BPS_DENOMINATOR
  {
    assert pot * (BPS_DENOMINATOR - rakeBps) == pot * BPS_DENOMINATOR - pot * rakeBps;
    assert pot * rakeBps <= pot * BPS_DENOMINATOR;
  }
}
