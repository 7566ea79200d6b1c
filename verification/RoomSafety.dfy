/** Safety over every run of a room: frozen standings, one settlement, one winner. */
module RoomSafety {
  import opened Options
  import opened Seqs
  import opened Dictionaries
  import opened Scoring
  import opened ScoreLaws
  import opened Ranking
  import opened RoomState
  import opened RoomRuns

  // --- what a finished race keeps ---

  /** The same race with the same standings; only phase and settlement status may differ. */
  ghost predicate SameRace(r: Room, r': Room) {
    r' == r.(phase := r'.phase, status := r'.status)
  }

  ghost predicate Over(r: Room, now: int) {
    r.phase != Lobby && now >= r.endsAt
  }

  /** Once the clock has reached the end of a race, no step changes anybody's score, or the
      players, their order or the letters. */
  lemma OverStep(w: World, e: Event)
    requires Enabled(w, e) && Over(w.room, w.clock)
    ensures SameRace(w.room, Step(w, e).room) && Over(Step(w, e).room, Step(w, e).clock)
    ensures w.room.phase == Done ==> Step(w, e).room.phase == Done
  {
  }

  ghost predicate DoneOnTime(w: World) {
    w.room.phase == Done ==> w.clock >= w.room.endsAt
  }

  lemma DoneOnTimeStep(w: World, e: Event)
    requires Enabled(w, e) && DoneOnTime(w)
    ensures DoneOnTime(Step(w, e))
    ensures Step(w, e).clock >= w.clock
  {
  }

  /** A race is open for exactly its length: from an accepted start on, whatever the snapshot in
      between, a player's word is judged at time t if and only if t is before the end. */
  lemma RaceLastsItsLength(r: Room, host: string, letters: string, now: int, viewAt: int, id: string, t: int)
    requires StartRefusal(r, host).None? && now <= viewAt <= t
    ensures Judges(Started(r, host, letters, now, viewAt), id, t) <==> id in r.players && t < now + r.raceLength
  {
  }

  // --- the settlement ---

  ghost predicate Final(s: SettleStatus) {
    s.Settled? || s.Failed?
  }

  /** At most one claim, made on a finished race for its leader; at most one call in flight, and
      exactly while the status is pending; at most one broadcast, for the claimed winner. */
  ghost predicate SettleInv(w: World) {
    && |w.claims| <= 1 && |w.calls| <= 1 && |w.broadcasts| <= 1
    && (w.room.status == Unsettled <==> w.claims == [])
    && (w.room.status == Pending <==> w.calls != [])
    && (w.claims != [] ==> w.room.phase == Done && w.room.stake.Some? && w.claims[0] == TicketOf(w.room))
    && (w.calls != [] && w.calls[0].Deciding? ==> w.broadcasts == [] && [w.calls[0].ticket] == w.claims)
    && (w.calls != [] && w.calls[0].Reporting? ==> ReportFits(w, w.calls[0].outcome))
    && (w.calls == [] && w.claims != [] ==> ReportFits(w, w.room.status))
    && (w.broadcasts != [] ==> w.claims != [] && w.broadcasts[0].winner == w.claims[0].winner
                               && w.broadcasts[0].roundId == w.claims[0].roundId
                               && IsHexAddress(w.broadcasts[0].winner))
  }

  /** A call reports success exactly when its broadcast landed, and the lack of a winner exactly when the
      claimed one has no wallet. */
  ghost predicate ReportFits(w: World, outcome: SettleStatus) {
    && Final(outcome)
    && (outcome == Settled <==> w.broadcasts != [] && w.broadcasts[0].landed)
    && (outcome == Failed(NoEligibleWinner) <==> w.claims != [] && !IsHexAddress(w.claims[0].winner))
    && (outcome.Failed? && outcome.why != NotBroadcast ==> w.broadcasts == [])
  }

  lemma SettleBeginStep(w: World)
    requires SettleInv(w) && w.room.stake.Some?
    ensures SettleInv(SettleBegin(w))
  {
    assert TicketOf(w.room) == TicketOf(Claimed(w.room, w.clock));
  }

  lemma SettleStep(w: World, e: Event)
    requires SettleInv(w) && DoneOnTime(w) && TimerInv(w) && Enabled(w, e)
    ensures SettleInv(Step(w, e))
  {
    match e
    case Fire => SettleBeginStep(w);
    case ExtraSettle => SettleBeginStep(w);
    case Consult(_, _, _, _) => ConsultStep(w, e);
    case Report(_) => ReportStep(w, e);
    case _ => CalmStep(w, e);
  }

  ghost predicate Calm(e: Event) {
    !e.Fire? && !e.ExtraSettle? && !e.Consult? && !e.Report?
  }

  lemma CalmStep(w: World, e: Event)
    requires SettleInv(w) && DoneOnTime(w) && Enabled(w, e) && Calm(e)
    ensures SettleInv(Step(w, e))
  {
    var w' := Step(w, e);
    assert w'.room.status == w.room.status && w'.room.stake == w.room.stake;
    assert w'.calls == w.calls && w'.claims == w.claims && w'.broadcasts == w.broadcasts;
    if w.room.phase == Done {
      OverStep(w, e);
      assert TicketOf(w'.room) == TicketOf(w.room);
    }
  }

  lemma ConsultStep(w: World, e: Event)
    requires SettleInv(w) && Enabled(w, e) && e.Consult?
    ensures SettleInv(Step(w, e))
  {
    assert w.calls == [w.calls[0]] && e.call == 0;
  }

  lemma ReportStep(w: World, e: Event)
    requires SettleInv(w) && Enabled(w, e) && e.Report?
    ensures SettleInv(Step(w, e))
  {
    assert w.calls == [w.calls[0]] && e.call == 0;
    assert Step(w, e).calls == [];
  }

  // --- stakes ---

  /** Every player of a staked room has a wallet that the chain has seen enter the round. */
  ghost predicate StakesPaid(w: World) {
    w.room.stake.Some? ==>
      forall id :: id in w.room.players ==> IsHexAddress(id) && AddressOf(id) in w.entered
  }

  lemma StakesPaidStep(w: World, e: Event)
    requires StakesPaid(w) && Enabled(w, e)
    ensures StakesPaid(Step(w, e))
  {
  }

  /** The wallets behind a set of ids; one wallet may be spelled in several ways. */
  ghost function Wallets(ids: set<string>): set<string> {
    set id | id in ids :: AddressOf(id)
  }

  ghost predicate OneIdPerWallet(ids: set<string>) {
    forall a, b :: a in ids && b in ids && AddressOf(a) == AddressOf(b) ==> a == b
  }

  lemma {:induction false} WalletCount(ids: set<string>)
    ensures |Wallets(ids)| <= |ids|
    ensures |Wallets(ids)| == |ids| <==> OneIdPerWallet(ids)
    decreases ids
  {
    if ids == {} {
      assert Wallets(ids) == {};
    } else {
      var x :| x in ids;
      var rest := ids - {x};
      WalletCount(rest);
      assert Wallets(ids) == Wallets(rest) + {AddressOf(x)};
      if AddressOf(x) in Wallets(rest) {
        var y :| y in rest && AddressOf(y) == AddressOf(x);
        assert !OneIdPerWallet(ids);
      } else {
        forall y | y in rest ensures AddressOf(y) != AddressOf(x) {
          assert AddressOf(y) in Wallets(rest);
        }
      }
    }
  }

  // --- the timer ---

  /** Only a staked room has a timer. It is set no earlier than the race was started, and is due
      when FiringTime says. */
  ghost predicate TimerInv(w: World) {
    && (w.room.stake.None? ==> w.timer == Unarmed)
    && (w.room.stake.Some? ==> (w.timer == Unarmed <==> w.room.phase == Lobby))
    && (w.timer.Armed? || w.timer.Fired? ==>
          w.timer.at <= w.clock && w.timer.due == FiringTime(w.room.stake.value.endsAt, w.timer.at))
  }

  lemma TimerStep(w: World, e: Event)
    requires TimerInv(w) && Enabled(w, e)
    ensures TimerInv(Step(w, e))
  {
  }

  // --- all of it, over every run ---

  ghost predicate Inv(w: World) {
    RoomInv(w.room, w.tried) && DoneOnTime(w) && SettleInv(w) && StakesPaid(w) && TimerInv(w)
  }

  lemma InitialInv(w: World)
    requires Initial(w)
    ensures Inv(w)
  {
    var host, dict, raceLength, stake :| w.room == Created(host, dict, raceLength, stake);
    var empty := Room(host, Lobby, "", 0, map[], [], dict, raceLength, stake, Unsettled);
    assert RoomInv(empty, map[]);
    AddPlayerKeeps(empty, map[], host);
  }

  lemma InvStep(w: World, e: Event)
    requires Inv(w) && Enabled(w, e)
    ensures Inv(Step(w, e))
  {
    RoomStep(w, e);
    DoneOnTimeStep(w, e);
    SettleStep(w, e);
    StakesPaidStep(w, e);
    TimerStep(w, e);
  }

  /** Every reachable room satisfies the invariant. */
  lemma {:induction false} RunKeepsInv(w: World, es: seq<Event>)
    requires Inv(w) && Runs(w, es)
    ensures Inv(After(w, es))
    decreases |es|
  {
    if es != [] {
      RunKeepsInv(w, es[..|es| - 1]);
      InvStep(After(w, es[..|es| - 1]), es[|es| - 1]);
    }
  }

  lemma Reachable(w: World, es: seq<Event>)
    requires Initial(w) && Runs(w, es)
    ensures Inv(After(w, es))
  {
    InitialInv(w);
    RunKeepsInv(w, es);
  }

  /** A prefix of a run is a run. */
  lemma {:induction false} RunPrefix(w: World, es: seq<Event>, n: nat)
    requires Runs(w, es) && n <= |es|
    ensures Runs(w, es[..n])
    decreases |es|
  {
    if n < |es| {
      RunPrefix(w, es[..|es| - 1], n);
      assert es[..|es| - 1][..n] == es[..n];
    } else {
      assert es[..n] == es;
    }
  }

  /** In every run the pot that a staked room shows is backed by an entry for each stake in it exactly
      when no two of its players are spellings of one wallet; the wallets have all entered. */
  lemma PotIsBackedExactlyWhen(w: World, es: seq<Event>)
    requires Initial(w) && Runs(w, es)
    requires After(w, es).room.stake.Some? && After(w, es).room.stake.value.wei > 0
    ensures var later, ids := After(w, es), After(w, es).room.players.Keys;
            && Wallets(ids) <= later.entered
            && (ViewOf(later.room).pot == later.room.stake.value.wei * |Wallets(ids)| <==> OneIdPerWallet(ids))
  {
    Reachable(w, es);
    var r := After(w, es).room;
    RankedIsRanking(r.players, r.order);
    DistinctCount(r.order);
    WalletCount(r.players.Keys);
    SameProduct(r.stake.value.wei, |r.order|, |Wallets(r.players.Keys)|);
  }

  lemma SameProduct(k: nat, a: nat, b: nat)
    requires k > 0
    ensures k * a == k * b <==> a == b
  {
  }

  lemma TwoSpellings(low: string, high: string)
    requires low == "0x" + seq(40, _ => 'a') && high == "0x" + seq(40, _ => 'A')
    ensures IsHexAddress(low) && IsHexAddress(high) && low != high && AddressOf(low) == AddressOf(high)
  {
    assert Digits(low) == seq(40, _ => 'a') && Digits(high) == seq(40, _ => 'A');
    assert low[2] != high[2];
  }

  /** Two spellings of one wallet can join on a single entry; the room then shows a pot of two. */
  lemma TwoSpellingsOneEntry(w: World, low: string, high: string) returns (es: seq<Event>)
    requires low == "0x" + seq(40, _ => 'a') && high == "0x" + seq(40, _ => 'A')
    requires exists dict :: w.room == Created(low, dict, 60 * SECOND, Some(Stake(1, 7, 180 * SECOND)))
    requires w == World(w.room, 0, Unarmed, [], [], [], {}, map[])
    ensures Initial(w) && Runs(w, es)
    ensures After(w, es).entered == {AddressOf(low)} && After(w, es).room.players.Keys == {low, high}
    ensures ViewOf(After(w, es).room).pot == 2
  {
    TwoSpellings(low, high);
    var entering := Enter(AddressOf(low));
    var joining, joiningToo := Join(low, true, Some(true), 0), Join(high, true, Some(true), 0);
    RunAppended(w, [], entering);
    RunAppended(w, [] + [entering], joining);
    RunAppended(w, [] + [entering] + [joining], joiningToo);
    es := [] + [entering] + [joining] + [joiningToo];
    var r := After(w, es).room;
    assert r.order == [low, high];
    RankedIsRanking(r.players, r.order);
  }

  lemma RunAppended(w: World, es: seq<Event>, e: Event)
    requires Runs(w, es) && Enabled(After(w, es), e)
    ensures Runs(w, es + [e]) && After(w, es + [e]) == Step(After(w, es), e)
  {
    assert (es + [e])[..|es|] == es;
  }

  // --- frozen standings ---

  /** From any point of a run at which the race is over, to any later one, the standings stay. */
  lemma {:induction false} FrozenBetween(w: World, es: seq<Event>, a: nat, b: nat)
    requires Runs(w, es) && a <= b <= |es|
    requires Runs(w, es[..a]) && Over(After(w, es[..a]).room, After(w, es[..a]).clock)
    ensures Runs(w, es[..b])
    ensures SameRace(After(w, es[..a]).room, After(w, es[..b]).room)
    ensures Over(After(w, es[..b]).room, After(w, es[..b]).clock)
    ensures After(w, es[..a]).room.phase == Done ==> After(w, es[..b]).room.phase == Done
    decreases b - a
  {
    RunPrefix(w, es, b);
    if a < b {
      FrozenBetween(w, es, a, b - 1);
      assert es[..b][..b - 1] == es[..b - 1];
      OverStep(After(w, es[..b - 1]), es[b - 1]);
    }
  }

  /** The winner that a snapshot of a finished race shows. */
  ghost function ShownWinner(r: Room): string {
    ViewOf(r).winner
  }

  lemma SameRaceSameWinner(r: Room, r': Room)
    requires SameRace(r, r') && r.phase == Done && r'.phase == Done
    ensures ShownWinner(r) == ShownWinner(r')
  {
  }

  lemma PaidIsLeader(w: World)
    requires SettleInv(w)
    ensures forall t :: t in w.claims ==> w.room.phase == Done && t.winner == Leader(w.room.players, w.room.order)
    ensures forall p :: p in w.broadcasts ==>
              && w.room.phase == Done && w.room.stake.Some? && IsHexAddress(p.winner)
              && p.winner == Leader(w.room.players, w.room.order)
  {
    if w.claims != [] {
      assert w.claims == [w.claims[0]];
    }
    if w.broadcasts != [] {
      assert w.broadcasts == [w.broadcasts[0]];
    }
  }

  lemma LeaderIsShown(r: Room)
    requires r.phase == Done
    ensures ShownWinner(r) == Leader(r.players, r.order)
  {
  }

  lemma LeaderIsPlayer(players: Players, order: seq<string>)
    requires NoDuplicates(order) && Leader(players, order) != ""
    ensures Leader(players, order) in Elements(order)
  {
    RankedIsRanking(players, order);
    assert Leader(players, order) in Elements(Ranked(players, order));
  }

  /** Two finished points of a run show the same winner. */
  lemma ShownAgree(w: World, es: seq<Event>, a: nat, b: nat)
    requires Inv(w) && Runs(w, es) && a <= b <= |es|
    requires Runs(w, es[..a]) && After(w, es[..a]).room.phase == Done
    ensures Runs(w, es[..b]) && After(w, es[..b]).room.phase == Done
    ensures ShownWinner(After(w, es[..a]).room) == ShownWinner(After(w, es[..b]).room)
  {
    RunKeepsInv(w, es[..a]);
    FrozenBetween(w, es, a, b);
    SameRaceSameWinner(After(w, es[..a]).room, After(w, es[..b]).room);
  }

  /** Whoever a finished race is shown to have been won by, at any point of a run, is who every
      other snapshot shows, whom the settlement claims the pot for, and whom any broadcast pays,
      whether the claim and the broadcast came before that snapshot or after it. */
  lemma OneWinner(w: World, es: seq<Event>, a: nat, b: nat)
    requires Initial(w) && Runs(w, es) && a <= |es| && b <= |es|
    requires Runs(w, es[..a]) && After(w, es[..a]).room.phase == Done
    ensures Runs(w, es[..b])
    ensures var winner, other := ShownWinner(After(w, es[..a]).room), After(w, es[..b]);
            && (other.room.phase == Done ==> ShownWinner(other.room) == winner)
            && (forall t :: t in other.claims ==> t.winner == winner)
            && (forall p :: p in other.broadcasts ==> p.winner == winner)
  {
    RunPrefix(w, es, b);
    InitialInv(w);
    var other := After(w, es[..b]);
    assert Inv(other) by {
      RunKeepsInv(w, es[..b]);
    }
    PaidIsLeader(other);
    if other.room.phase == Done {
      LeaderIsShown(other.room);
      ShownAgree(w, es, if a <= b then a else b, if a <= b then b else a);
    }
  }

  /** However often settlement is attempted, at most one attempt gets past the guard and at most
      one broadcast is made, on a finished race; a reported success was broadcast. */
  lemma OneSettlement(w: World, es: seq<Event>)
    requires Initial(w) && Runs(w, es)
    ensures var later := After(w, es);
            && |later.claims| <= 1 && |later.broadcasts| <= 1
            && (later.claims != [] ==> later.room.phase == Done && later.clock >= later.room.endsAt)
            && (later.broadcasts != [] ==> later.claims != [])
            && (later.room.status == Settled ==> later.broadcasts != [])
  {
    Reachable(w, es);
  }

  /** Whoever is paid is a player of the room with a wallet that entered the round. */
  lemma PaidPlayerEntered(w: World, es: seq<Event>)
    requires Initial(w) && Runs(w, es)
    ensures var later := After(w, es);
            forall p :: p in later.broadcasts ==>
              p.winner in later.room.players && AddressOf(p.winner) in later.entered
  {
    var later := After(w, es);
    assert Inv(later) by {
      Reachable(w, es);
    }
    PaidIsLeader(later);
    if later.broadcasts != [] {
      assert later.broadcasts[0] in later.broadcasts;
      LeaderIsPlayer(later.room.players, later.room.order);
    }
  }

  /** The settlement status only moves forward: unsettled, pending, then settled or failed. */
  lemma StatusMovesForward(w: World, e: Event)
    requires Inv(w) && Enabled(w, e)
    ensures var before, after := w.room.status, Step(w, e).room.status;
            || after == before
            || (before == Unsettled && after == Pending)
            || (before == Pending && Final(after))
  {
    match e
    case Join(_, _, _, _) =>
    case Start(_, _, _) =>
    case Submit(_, _, _) =>
    case Report(_) =>
    case _ =>
  }

  ghost function PhaseRank(p: Phase): nat {
    match p case Lobby => 0 case Racing => 1 case Done => 2
  }

  /** Phases only move forward, nobody leaves, and nobody joins after the start. */
  lemma PhaseMovesForward(w: World, e: Event)
    requires Enabled(w, e)
    ensures var r, r' := w.room, Step(w, e).room;
            && PhaseRank(r.phase) <= PhaseRank(r'.phase)
            && r.players.Keys <= r'.players.Keys && r.order <= r'.order
            && (r.phase != Lobby ==> r'.order == r.order && r'.letters == r.letters && r'.endsAt == r.endsAt)
  {
    match e
    case Join(_, _, _, _) =>
    case Start(_, _, _) =>
    case Submit(_, _, _) =>
    case _ =>
  }

  /** A word that is tried never costs its player a place in the standings. */
  lemma WordKeepsPlace(r: Room, tried: map<string, seq<string>>, id: string, word: string, k: nat, k': nat)
    requires RoomInv(r, tried) && id in r.players
    requires k < |Ranked(r.players, r.order)| && Ranked(r.players, r.order)[k] == id
    requires var after := WordTried(r, id, word);
             k' < |Ranked(after.players, after.order)| && Ranked(after.players, after.order)[k'] == id
    ensures k' <= k
  {
    var after := WordTried(r, id, word);
    RankedIsRanking(r.players, r.order);
    RankedIsRanking(after.players, r.order);
    GainKeepsPlace(r.players, after.players, r.order, id, k, k');
  }

  /** What a settlement call decides: it broadcasts exactly when the winner has a wallet, the round
      could be read and the payout signed; it reports success exactly when that broadcast went
      through; and it pays the claimed winner no more than the pot. */
  lemma DecisionIsSound(t: Ticket, round: Option<Round>, signed: bool, sent: bool)
    ensures var (outcome, payout) := Decide(t, round, signed, sent);
            && Final(outcome)
            && (payout.Some? <==> IsHexAddress(t.winner) && round.Some? && signed)
            && (outcome == Settled <==> payout.Some? && sent)
            && (outcome == Failed(NoEligibleWinner) <==> !IsHexAddress(t.winner))
            && (outcome == Failed(RoundUnreadable) <==> IsHexAddress(t.winner) && round.None?)
            && (payout.Some? ==> payout.value.winner == t.winner && payout.value.roundId == t.roundId)
            && (payout.Some? && round.value.rakeBps <= BPS_DENOMINATOR ==>
                  0 <= payout.value.payout <= round.value.pot)
  {
    if round.Some? && round.value.rakeBps <= BPS_DENOMINATOR {
      PayoutIsShareRoundedUp(round.value.pot, round.value.rakeBps);
    }
  }

  ghost predicate PaysShare(p: Broadcast) {
    p.payout == PayoutAfterRake(p.read.pot, p.read.rakeBps)
  }

  lemma {:induction false} BroadcastsPayShare(w: World, es: seq<Event>)
    requires Initial(w) && Runs(w, es)
    ensures forall p :: p in After(w, es).broadcasts ==> PaysShare(p)
    decreases |es|
  {
    if es != [] {
      BroadcastsPayShare(w, es[..|es| - 1]);
    }
  }

  /** In every run whatever is broadcast is the pot that was read for it less the rake, rounded in the
      winner's favour: the winner's share of the pot rounded up, and never more than the pot. */
  lemma BroadcastsPayFromThePot(w: World, es: seq<Event>, p: Broadcast)
    requires Initial(w) && Runs(w, es) && p in After(w, es).broadcasts && p.read.rakeBps <= BPS_DENOMINATOR
    ensures 0 <= p.payout <= p.read.pot
    ensures var due := p.read.pot * (BPS_DENOMINATOR - p.read.rakeBps);
            (p.payout - 1) * BPS_DENOMINATOR < due <= p.payout * BPS_DENOMINATOR
  {
    BroadcastsPayShare(w, es);
    PayoutIsShareRoundedUp(p.read.pot, p.read.rakeBps);
  }

  // --- the incremental score is the batch score ---

  /** In every run a player's score and word count are what the referee gives for all the words
      that the race judged for that player, submitted in one go; so no player can score more than
      all the words that the dictionary finds for the letters. */
  lemma IncrementalIsBatch(w: World, es: seq<Event>, id: string)
    requires Initial(w) && Runs(w, es) && id in After(w, es).room.players
    ensures var later := After(w, es);
            var p := later.room.players[id];
            var res := ScoreOf(later.room.dict, later.room.letters, TriedBy(later.tried, id));
            && p.score == res.total && p.words == |res.accepted| && p.found == Elements(WordsOf(res.accepted))
            && p.score <= Points(Buildable(later.room.dict, later.room.letters))
  {
    Reachable(w, es);
    var r, tried := After(w, es).room, TriedBy(After(w, es).tried, id);
    assert RecordOf(r, r.players[id], tried);
    AcceptedAre(r.dict, r.letters, tried);
    forall v | v in r.players[id].found ensures v in Buildable(r.dict, r.letters) {
      ScoringIsBuildable(r.dict, r.letters, v);
    }
    PointsMonotone(r.players[id].found, Buildable(r.dict, r.letters));
  }
}
